/**
 The parameter exchange at the start of a transfer: `rpar` announces, `spar`
 adopts. Both ends must leave it with the same idea of the data-field code.
 */
module Negotiation {
  import opened Bytes
  import opened Codec
  import opened SendCodec

  const P_WSLOTS: int := 4
  const CAP_LP: int := 2
  const CAP_SW: int := 4
  const CAP_AT: int := 8

  /** The negotiable part of the control structure. */
  datatype Params = Params(
    s_maxlen: int, r_maxlen: int, r_timo: int, s_timo: int, s_eom: byte, r_eom: byte,
    s_ctlq: byte, r_ctlq: byte, ebq: byte, ebqflg: bool, parity: int, bct: int,
    rptq: byte, rptflg: bool, capas: int, window: int, retry: int)

  /** How K_INIT leaves them; parity and block check type are the caller's choice. */
  function Initial(parity: int, bct: int): Params {
    Params(P_PKTLEN, P_PKTLEN, 5, 40, CR, CR, 35, 35, 89, false, parity, bct, 126, false,
           CAP_LP + CAP_SW + CAP_AT, P_WSLOTS, 10)
  }

  /** The same for an end that may do without attribute packets. */
  function Offer(parity: int, bct: int, attrs: bool): (p: Params)
    ensures attrs ==> p == Initial(parity, bct)
  {
    Initial(parity, bct).(capas := CAP_LP + CAP_SW + if attrs then CAP_AT else 0)
  }

  /** The code the sending side writes. */
  function EncodeQuoting(p: Params): Quoting {
    Quoting(p.s_ctlq, p.ebqflg, p.ebq, p.rptflg, p.rptq)
  }

  /** The code the receiving side reads: it goes by parity, not by the prefixing flag. */
  function DecodeQuoting(p: Params): Quoting {
    Quoting(p.r_ctlq, p.parity != 0, p.ebq, p.rptflg, p.rptq)
  }

  function Config(p: Params): SendConfig {
    SendConfig(EncodeQuoting(p), p.s_maxlen, p.bct)
  }

  /** The capability bits, one of 2, 4, 8. */
  predicate Has(capas: int, bit: int)
    requires bit > 0
  {
    (capas / bit) % 2 == 1
  }

  /** The request for 8th-bit prefixing that rpar makes when it needs one and has not been asked. */
  function Requested(p: Params): Params {
    if p.ebq == 89 && p.parity != 0 then p.(ebq := 38) else p
  }

  /** The parameter string of rpar. */
  function Announce(p: Params): seq<byte> {
    [ToChar(94), ToChar(p.s_timo), ToChar(0), Ctl(0), ToChar(p.r_eom), p.s_ctlq, Requested(p).ebq,
     (p.bct + 48) % 256, p.rptq, ToChar(p.capas), ToChar(p.window), ToChar(p.r_maxlen / 95), ToChar(p.r_maxlen % 95)]
  }

  /** A prefix character may be 33..62 or 96..126; anything else asks for nothing. */
  predicate Requests(ch: byte) {
    32 < ch < 63 || 95 < ch < 127
  }

  /** The bits both sides have. */
  function Both(mine: int, theirs: int): int {
    (if Has(mine, CAP_LP) && Has(theirs, CAP_LP) then CAP_LP else 0) +
    (if Has(mine, CAP_SW) && Has(theirs, CAP_SW) then CAP_SW else 0) +
    (if Has(mine, CAP_AT) && Has(theirs, CAP_AT) then CAP_AT else 0)
  }

  // ---- What spar makes of a parameter string ----

  /** Field `i`, counted from one as in the source; one past the end is the terminator. */
  function Field(s: seq<byte>, i: nat): byte
    requires 1 <= i <= |s| + 1
  {
    if i <= |s| then s[i - 1] else 0
  }

  /** The last capability field: the first from field 10 on without a continuation bit. */
  function LastCapability(s: seq<byte>, y: nat): (r: nat)
    requires 10 <= y <= |s| + 1
    ensures y <= r <= |s| + 1
    decreases |s| + 1 - y
  {
    if y <= |s| && UnChar(Field(s, y)) % 2 == 1 then LastCapability(s, y + 1) else y
  }

  /** Where spar starts looking for the window and the long length; zero if there are no capability fields. */
  function Extras(s: seq<byte>): nat {
    if |s| >= 10 then LastCapability(s, 10) else 0
  }

  /** The 8th-bit prefix, whether it is used, and the parity, after field 7. */
  function AdoptEighth(p: Params, s: seq<byte>): (byte, bool, int) {
    if |s| < 7 then (p.ebq, p.ebqflg, p.parity)
    else if Requests(s[6]) then (s[6], true, if p.parity == 0 then 1 else p.parity)
    else if s[6] == 89 && p.parity != 0 then (38, true, p.parity)
    else (s[6], p.ebqflg, p.parity)
  }

  function AdoptCapas(p: Params, s: seq<byte>): int {
    if |s| >= 10 then Both(p.capas, UnChar(s[9])) else p.capas
  }

  function AdoptMaxlen(p: Params, s: seq<byte>): int {
    var y := Extras(s);
    if Has(AdoptCapas(p, s), CAP_LP) && |s| > y + 1 then
      var x: int := UnChar(Field(s, y + 2)) * 95 + UnChar(Field(s, y + 3));
      if x > P_PKTLEN then P_PKTLEN else if x < 10 then 60 else x
    else if |s| >= 1 then UnChar(s[0])
    else p.s_maxlen
  }

  function AdoptWindow(p: Params, s: seq<byte>): int {
    var y := Extras(s);
    if Has(AdoptCapas(p, s), CAP_SW) && |s| > y then
      var x := UnChar(Field(s, y + 1));
      if x > P_WSLOTS then P_WSLOTS else if x < 1 then 1 else x
    else p.window
  }

  /** The parameters after spar has seen the string `s`. */
  function Adopt(p: Params, s: seq<byte>): Params {
    var (ebq, ebqflg, parity) := AdoptEighth(p, s);
    var window := AdoptWindow(p, s);
    p.(
      s_maxlen := AdoptMaxlen(p, s),
      r_timo := if |s| >= 2 then UnChar(s[1]) else p.r_timo,
      s_eom := if |s| >= 5 then UnChar(s[4]) else p.s_eom,
      r_ctlq := if |s| >= 6 then s[5] else p.r_ctlq,
      ebq := ebq, ebqflg := ebqflg, parity := parity,
      bct := if |s| < 8 then p.bct else if 49 <= s[7] <= 51 then s[7] as int - 48 else 1,
      rptq := if |s| >= 9 && Requests(s[8]) then s[8] else p.rptq,
      rptflg := p.rptflg || (|s| >= 9 && Requests(s[8])),
      capas := AdoptCapas(p, s),
      window := window,
      retry := if Has(AdoptCapas(p, s), CAP_SW) && |s| > Extras(s) && window > 1 && window > p.retry
               then window + 1 else p.retry)
  }

  class Negotiator {
    var p: Params

    constructor (parity: int, bct: int)
      ensures p == Initial(parity, bct)
    {
      p := Initial(parity, bct);
    }

    /** Removes a capability the other side does not have. */
    method Drop(x: int, bit: int)
      requires bit == CAP_LP || bit == CAP_SW || bit == CAP_AT
      requires p.capas == Both(p.capas, p.capas)
      modifies this
      ensures p == old(p).(capas := if Has(x, bit) || !Has(old(p.capas), bit) then old(p.capas) else old(p.capas) - bit)
      ensures p.capas == Both(p.capas, p.capas)
    {
      if !Has(x, bit) && Has(p.capas, bit) {
        p := p.(capas := p.capas - bit);
      }
    }

    /** Fields 1 to 9. */
    method SparBasics(s: seq<byte>)
      modifies this
      ensures var (ebq, ebqflg, parity) := AdoptEighth(old(p), s);
              p == old(p).(
                s_maxlen := if |s| >= 1 then UnChar(s[0]) else old(p).s_maxlen,
                r_timo := if |s| >= 2 then UnChar(s[1]) else old(p).r_timo,
                s_eom := if |s| >= 5 then UnChar(s[4]) else old(p).s_eom,
                r_ctlq := if |s| >= 6 then s[5] else old(p).r_ctlq,
                ebq := ebq, ebqflg := ebqflg, parity := parity,
                bct := if |s| < 8 then old(p).bct else if 49 <= s[7] <= 51 then s[7] as int - 48 else 1,
                rptq := if |s| >= 9 && Requests(s[8]) then s[8] else old(p).rptq,
                rptflg := old(p).rptflg || (|s| >= 9 && Requests(s[8])))
    {
      if |s| >= 1 {
        p := p.(s_maxlen := UnChar(s[0]));
      }
      if |s| >= 2 {
        p := p.(r_timo := UnChar(s[1]));
      }
      if |s| >= 5 {
        p := p.(s_eom := UnChar(s[4]));
      }
      if |s| >= 6 {
        p := p.(r_ctlq := s[5]);
      }
      if |s| >= 7 {
        p := p.(ebq := s[6]);
        if (s[6] > 32 && s[6] < 63) || (s[6] > 95 && s[6] < 127) {
          if p.parity == 0 {
            p := p.(parity := 1);
          }
          p := p.(ebqflg := true);
        } else if s[6] == 89 && p.parity != 0 {
          p := p.(ebqflg := true, ebq := 38);
        }
      }
      if |s| >= 8 {
        p := p.(bct := s[7] as int - 48);
        if p.bct < 1 || p.bct > 3 {
          p := p.(bct := 1);
        }
      }
      if |s| >= 9 {
        if (s[8] > 32 && s[8] < 63) || (s[8] > 95 && s[8] < 127) {
          p := p.(rptq := s[8], rptflg := true);
        }
      }
    }

    /** The capability fields, and where the fields after them start. */
    method SparCapabilities(s: seq<byte>) returns (y: nat)
      requires p.capas == Both(p.capas, p.capas)
      modifies this
      ensures p == old(p).(capas := AdoptCapas(old(p), s)) && y == Extras(s)
    {
      y := 0;
      if |s| >= 10 {
        var x := UnChar(s[9]);
        Drop(x, CAP_LP);
        Drop(x, CAP_SW);
        Drop(x, CAP_AT);
        y := 10;
        while y <= |s| && UnChar(Field(s, y)) % 2 == 1
          invariant 10 <= y <= |s| + 1 && LastCapability(s, y) == LastCapability(s, 10)
        {
          y := y + 1;
        }
      }
    }

    /** Long packet length and window, if the capabilities allow them. */
    method SparExtras(s: seq<byte>, y: nat)
      requires y <= |s| + 1
      modifies this
      ensures var lp := Has(old(p).capas, CAP_LP) && |s| > y + 1;
              var sw := Has(old(p).capas, CAP_SW) && |s| > y;
              var x: int := if lp then UnChar(Field(s, y + 2)) * 95 + UnChar(Field(s, y + 3)) else 0;
              var w: int := if sw then UnChar(Field(s, y + 1)) else 0;
              var window := if !sw then old(p).window else if w > P_WSLOTS then P_WSLOTS else if w < 1 then 1 else w;
              p == old(p).(
                s_maxlen := if !lp then old(p).s_maxlen
                            else if x > P_PKTLEN then P_PKTLEN else if x < 10 then 60 else x,
                window := window,
                retry := if sw && window > 1 && window > old(p).retry then window + 1 else old(p).retry)
    {
      if Has(p.capas, CAP_LP) {
        if |s| > y + 1 {
          var x: int := UnChar(Field(s, y + 2)) * 95 + UnChar(Field(s, y + 3));
          p := p.(s_maxlen := if x > P_PKTLEN then P_PKTLEN else x);
          if p.s_maxlen < 10 {
            p := p.(s_maxlen := 60);
          }
        }
      }
      if Has(p.capas, CAP_SW) {
        if |s| > y {
          var x := UnChar(Field(s, y + 1));
          p := p.(window := if x > P_WSLOTS then P_WSLOTS else x);
          if p.window < 1 {
            p := p.(window := 1);
          }
          if p.window > 1 {
            if p.window > p.retry {
              p := p.(retry := p.window + 1);
            }
          }
        }
      }
    }

    /** Sets the parameters the other side has announced. */
    method Spar(s: seq<byte>)
      requires p.capas == Both(p.capas, p.capas)
      modifies this
      ensures p == Adopt(old(p), s)
    {
      SparBasics(s);
      var y := SparCapabilities(s);
      SparExtras(s, y);
    }

    /** Builds the announcement; it is sent with a type-1 check, after which `bct` is as before. */
    method Rpar() returns (d: seq<byte>, sentWith: int)
      modifies this
      ensures p == Requested(old(p)) && d == Announce(old(p)) && sentWith == 1
    {
      d := [ToChar(94), ToChar(p.s_timo), ToChar(0), Ctl(0), ToChar(p.r_eom), p.s_ctlq];
      if p.ebq == 89 && p.parity != 0 {
        p := p.(ebq := 38);
      }
      d := d + [p.ebq, (p.bct + 48) % 256, p.rptq, ToChar(p.capas), ToChar(p.window),
                ToChar(p.r_maxlen / 95), ToChar(p.r_maxlen % 95)];
      var b := p.bct;
      p := p.(bct := 1);
      sentWith := p.bct;
      p := p.(bct := b);
    }
  }

  /** spar leaves only the three known capability bits, and of those only what was set and is offered. */
  lemma CapasStayKnown(p: Params, s: seq<byte>)
    requires p.capas == Both(p.capas, p.capas)
    ensures Adopt(p, s).capas == Both(Adopt(p, s).capas, Adopt(p, s).capas)
    ensures Requested(Adopt(p, s)).capas == Adopt(p, s).capas
    ensures forall bit :: bit in {CAP_LP, CAP_SW, CAP_AT} ==>
              (Has(Adopt(p, s).capas, bit) <==> Has(p.capas, bit) && (|s| >= 10 ==> Has(UnChar(s[9]), bit)))
  {
    if |s| >= 10 {
      KnownBits(p.capas, UnChar(s[9]));
      BothHas(p.capas, UnChar(s[9]));
    }
  }

  lemma BothHas(a: int, b: int)
    ensures forall bit :: bit in {CAP_LP, CAP_SW, CAP_AT} ==> (Has(Both(a, b), bit) <==> Has(a, bit) && Has(b, bit))
  {
  }

  lemma RequestKeepsCapas(p: Params)
    ensures Requested(p).capas == p.capas
  {
  }

  lemma KnownBits(a: int, b: int)
    ensures Both(Both(a, b), Both(a, b)) == Both(a, b)
  {
  }

  // ---- What one end announces is what the other adopts ----

  /** An end whose parameters can be announced: each in one printable character, the limit in two. */
  predicate Announceable(o: Params) {
    && 0 <= o.s_timo <= 94 && o.r_eom <= 94 && 0 <= o.bct <= 78
    && 0 <= o.capas <= 94 && o.capas % 2 == 0 && 0 <= o.window <= 94 && 0 <= o.r_maxlen < 95 * 95
  }

  function Min(a: int, b: int): int {
    if a <= b then a else b
  }

  /** The longest packets to send: what the other end asks for, if both can do long ones, within what can be built. */
  function LimitFor(mine: int, o: Params): int {
    if !Has(mine, CAP_LP) || !Has(o.capas, CAP_LP) then 94
    else if o.r_maxlen < 10 then 60
    else Min(o.r_maxlen, P_PKTLEN)
  }

  function WindowFor(p: Params, o: Params): int {
    if !Has(p.capas, CAP_SW) || !Has(o.capas, CAP_SW) then p.window
    else if o.window < 1 then 1
    else Min(o.window, P_WSLOTS)
  }

  /** The 8th-bit prefix asked for, or offered to one who needs it, and parity as soon as one is in use. */
  function PrefixFor(p: Params, o: Params): (byte, bool, int) {
    var e := Requested(o).ebq;
    if Requests(e) then (e, true, if p.parity == 0 then 1 else p.parity)
    else if e == 89 && p.parity != 0 then (38, true, p.parity)
    else (e, p.ebqflg, p.parity)
  }

  lemma PrintedNumbers(n: nat)
    requires n < 256
    ensures UnChar(ToChar(n)) == n
  {
  }

  lemma PrintedLimit(n: nat)
    requires n < 95 * 95
    ensures UnChar(ToChar(n / 95)) * 95 + UnChar(ToChar(n % 95)) == n
  {
    PrintedNumbers(n / 95);
    PrintedNumbers(n % 95);
  }

  lemma OneCapabilityField(o: Params)
    requires Announceable(o)
    ensures |Announce(o)| == 13 && Extras(Announce(o)) == 10 && UnChar(Announce(o)[9]) == o.capas
  {
    PrintedNumbers(o.capas);
  }

  lemma AnnouncedLimit(p: Params, o: Params)
    requires Announceable(o)
    ensures AdoptMaxlen(p, Announce(o)) == LimitFor(p.capas, o)
  {
    OneCapabilityField(o);
    BothHas(p.capas, o.capas);
    PrintedLimit(o.r_maxlen);
    hide Has;
    hide Both;
    hide Extras;
    hide ToChar;
    hide UnChar;
    assert UnChar(Announce(o)[0]) == 94 by {
      PrintedNumbers(94);
    }
  }

  lemma AnnouncedWindow(p: Params, o: Params)
    requires Announceable(o)
    ensures AdoptWindow(p, Announce(o)) == WindowFor(p, o)
  {
    OneCapabilityField(o);
    BothHas(p.capas, o.capas);
    PrintedNumbers(o.window);
    hide Has;
    hide Both;
    hide Extras;
    hide ToChar;
    hide UnChar;
  }

  lemma AnnouncedPrefix(p: Params, o: Params)
    ensures AdoptEighth(p, Announce(o)) == PrefixFor(p, o)
  {
    var s := Announce(o);
    assert |s| == 13 && s[6] == Requested(o).ebq;
    hide Announce;
    hide Requested;
  }

  lemma AnnouncedCapas(p: Params, o: Params)
    requires Announceable(o)
    ensures AdoptCapas(p, Announce(o)) == Both(p.capas, o.capas)
  {
    OneCapabilityField(o);
    hide Announce;
    hide Both;
    hide Extras;
    hide UnChar;
  }

  lemma AnnouncedRest(o: Params)
    requires Announceable(o)
    ensures var s := Announce(o);
            && |s| == 13 && UnChar(s[1]) == o.s_timo && UnChar(s[4]) == o.r_eom && s[5] == o.s_ctlq
            && s[7] == o.bct + 48 && s[8] == o.rptq
  {
    hide ToChar;
    hide UnChar;
    hide Ctl;
    hide Requested;
    hide Has;
    PrintedNumbers(o.s_timo);
    PrintedNumbers(o.r_eom);
  }

  /**
   Whatever the other end is like, as long as its parameters fit their fields: what it
   announces is what spar adopts, parameter by parameter, and nothing else changes. The
   limit on packets is at most what the other end can take, if and only if that is ten or
   more, or 94 or more when one of the two cannot do long packets.
   */
  lemma AnnouncementIsUnderstood(p: Params, o: Params)
    requires Announceable(o)
    ensures var (ebq, ebqflg, parity) := PrefixFor(p, o);
            var window := WindowFor(p, o);
            Adopt(p, Announce(o)) == p.(
              s_maxlen := LimitFor(p.capas, o), r_timo := o.s_timo, s_eom := o.r_eom, r_ctlq := o.s_ctlq,
              ebq := ebq, ebqflg := ebqflg, parity := parity, bct := if 1 <= o.bct <= 3 then o.bct else 1,
              rptq := if Requests(o.rptq) then o.rptq else p.rptq, rptflg := p.rptflg || Requests(o.rptq),
              capas := Both(p.capas, o.capas), window := window,
              retry := if Has(p.capas, CAP_SW) && Has(o.capas, CAP_SW) && window > 1 && window > p.retry
                       then window + 1 else p.retry)
    ensures Adopt(p, Announce(o)).s_maxlen <= o.r_maxlen <==>
              o.r_maxlen >= if Has(p.capas, CAP_LP) && Has(o.capas, CAP_LP) then 10 else 94
  {
    AnnouncedLimit(p, o);
    AnnouncedWindow(p, o);
    AnnouncedPrefix(p, o);
    AnnouncedCapas(p, o);
    AnnouncedRest(o);
    OneCapabilityField(o);
    BothHas(p.capas, o.capas);
    hide Announce;
    hide AdoptMaxlen;
    hide AdoptWindow;
    hide AdoptEighth;
    hide AdoptCapas;
    hide PrefixFor;
    hide WindowFor;
    hide Both;
    hide Has;
    hide Extras;
    hide UnChar;
  }

  /** From an announcement that stops early only the fields it has are adopted. */
  lemma MissingFieldsChangeNothing(p: Params, o: Params, n: nat)
    requires Announceable(o) && n <= 13
    ensures var a := Adopt(p, Announce(o)[..n]);
            && a.r_timo == (if n >= 2 then o.s_timo else p.r_timo)
            && a.s_eom == (if n >= 5 then o.r_eom else p.s_eom)
            && a.r_ctlq == (if n >= 6 then o.s_ctlq else p.r_ctlq)
            && (a.ebq, a.ebqflg, a.parity) == (if n >= 7 then PrefixFor(p, o) else (p.ebq, p.ebqflg, p.parity))
            && a.bct == (if n < 8 then p.bct else if 1 <= o.bct <= 3 then o.bct else 1)
            && a.rptq == (if n >= 9 && Requests(o.rptq) then o.rptq else p.rptq)
            && a.rptflg == (p.rptflg || (n >= 9 && Requests(o.rptq)))
            && a.capas == (if n >= 10 then Both(p.capas, o.capas) else p.capas)
  {
    AnnouncedRest(o);
    OneCapabilityField(o);
    var s, t := Announce(o), Announce(o)[..n];
    assert s[6] == Requested(o).ebq && forall i :: 0 <= i < n ==> t[i] == s[i];
    hide Announce;
    hide AdoptMaxlen;
    hide AdoptWindow;
    hide Both;
    hide Has;
    hide Extras;
    hide Requested;
    hide UnChar;
  }

  /** The capability fields end with the first, from field 10 on, that does not announce another. */
  lemma {:induction false} CapabilitiesEnd(s: seq<byte>, y: nat, r: nat)
    requires 10 <= y <= r <= |s| + 1
    ensures LastCapability(s, y) == r <==>
              (forall i :: y <= i < r ==> UnChar(Field(s, i)) % 2 == 1) && (r <= |s| ==> UnChar(Field(s, r)) % 2 == 0)
    decreases |s| + 1 - y
  {
    hide UnChar;
    if y <= |s| && UnChar(Field(s, y)) % 2 == 1 && y < r {
      CapabilitiesEnd(s, y + 1, r);
    }
  }

  // ---- Agreement ----

  /** What the two ends need to have in common before data can flow from `s` to `r`. */
  predicate Agreed(s: Params, r: Params) {
    && EncodeQuoting(s) == DecodeQuoting(r)
    && Config(s).Usable()
    && s.bct == r.bct
    && s.s_maxlen <= r.r_maxlen
    && s.capas == r.capas
  }

  /** The receiver after reading the announcement of a sender, and answering it. */
  function AfterS(ps: int, bs: int, sa: bool, pr: int, br: int, ra: bool): Params {
    Requested(Adopt(Offer(pr, br, ra), Announce(Offer(ps, bs, sa))))
  }

  /** The sender after reading the answer. */
  function AfterY(ps: int, bs: int, sa: bool, pr: int, br: int, ra: bool): Params {
    Adopt(Requested(Offer(ps, bs, sa)), Announce(Adopt(Offer(pr, br, ra), Announce(Offer(ps, bs, sa)))))
  }

  /** An announcement by a side whose variable parameters are parity, check type, 8th-bit prefix and attributes. */
  lemma AnnouncementShape(p: Params, parity: int, bct: int, attrs: bool)
    requires 1 <= bct <= 3
    requires p == Offer(parity, bct, attrs).(ebq := p.ebq, ebqflg := p.ebqflg, r_timo := p.r_timo, rptflg := p.rptflg)
    ensures Announce(p) == [126, 72, 32, 64, 45, 35, Requested(p).ebq, bct + 48, 126, if attrs then 46 else 38,
                            36, 53, 37]
  {
  }

  /** spar on such an announcement. */
  lemma AdoptAnnouncement(p: Params, parity: int, bct: int, mine: bool, s: seq<byte>, e: byte, b: int, theirs: bool)
    requires 1 <= b <= 3 && (e == 38 || e == 89)
    requires p == Offer(parity, bct, mine).(ebq := p.ebq)
    requires s == [126, 72, 32, 64, 45, 35, e, b + 48, 126, if theirs then 46 else 38, 36, 53, 37]
    ensures Adopt(p, s) ==
            Offer(if e == 38 && parity == 0 then 1 else parity, b, mine && theirs).(
              r_timo := 40, ebq := if e == 38 || parity != 0 then 38 else 89, ebqflg := e == 38 || parity != 0,
              rptflg := true)
  {
    assert UnChar(46) == 14 && UnChar(38) == 6 && UnChar(45) == 13 && UnChar(72) == 40;
    assert UnChar(Field(s, 10)) % 2 == 0;
    assert LastCapability(s, 10) == 10;
    assert Has(14, 2) && Has(14, 4) && Has(14, 8) && Has(6, 2) && Has(6, 4) && !Has(6, 8);
    assert UnChar(53) == 21 && UnChar(37) == 5 && UnChar(36) == 4;
  }

  /**
   For every parity at either end and every block check type of the sender, the
   exchange ends in agreement in both directions. Prefixing of the eighth bit is
   on exactly when one of the two lines needs it, and then both ends know. Attributes
   are sent exactly when both offer them.
   */
  lemma NegotiationAgrees(ps: int, bs: int, sa: bool, pr: int, br: int, ra: bool)
    requires 1 <= bs <= 3 && 1 <= br <= 3
    ensures var s := AfterY(ps, bs, sa, pr, br, ra);
            var r := AfterS(ps, bs, sa, pr, br, ra);
            && Agreed(s, r) && Agreed(r, s)
            && s.bct == bs
            && s.rptflg && r.rptflg
            && (s.ebqflg <==> s.parity != 0) && (r.ebqflg <==> r.parity != 0)
            && (s.ebqflg <==> ps != 0 || pr != 0)
            && s.s_maxlen == r.s_maxlen == s.r_maxlen == r.r_maxlen == P_PKTLEN
            && s.s_eom == r.s_eom == CR
            && Has(s.capas, CAP_LP) && Has(s.capas, CAP_SW) && (Has(s.capas, CAP_AT) <==> sa && ra)
  {
    hide Adopt;
    hide Announce;
    var i, j := Offer(ps, bs, sa), Offer(pr, br, ra);
    AnnouncementShape(i, ps, bs, sa);
    var r := Adopt(j, Announce(i));
    AdoptAnnouncement(j, pr, br, ra, Announce(i), Requested(i).ebq, bs, sa);
    AnnouncementShape(r, r.parity, bs, ra && sa);
    AdoptAnnouncement(Requested(i), ps, bs, sa, Announce(r), Requested(r).ebq, bs, ra && sa);
  }

  /** The two announcements themselves can cross any line. */
  lemma AnnouncementsArePlain(ps: int, bs: int, sa: bool, pr: int, br: int, ra: bool)
    requires 1 <= bs <= 3 && 1 <= br <= 3
    ensures var there := Announce(Offer(ps, bs, sa));
            var back := Announce(Adopt(Offer(pr, br, ra), there));
            && |there| == |back| == 13
            && (forall i :: 0 <= i < 13 ==> 32 <= there[i] <= 126 && 32 <= back[i] <= 126)
  {
    var i, j := Offer(ps, bs, sa), Offer(pr, br, ra);
    AnnouncementShape(i, ps, bs, sa);
    var r := Adopt(j, Announce(i));
    AdoptAnnouncement(j, pr, br, ra, Announce(i), Requested(i).ebq, bs, sa);
    AnnouncementShape(r, r.parity, bs, ra && sa);
  }

  /** The peer has not offered long packets, so its field 1 should be the limit. */
  predicate ShortOnly(s: seq<byte>, n: nat) {
    |s| == n && n >= 1 && (n >= 10 ==> !Has(UnChar(s[9]), CAP_LP))
  }

  /**
   A peer whose string stops before the capabilities, but after its first field,
   can be sent packets longer than it asked for: the length is then read from the
   fields for the timeout and the padding. Here 80 was asked for and at least 950
   is used.
   */
  lemma ShortAnnouncementIsMisread(n: nat) returns (s: seq<byte>)
    requires 2 <= n <= 9
    ensures ShortOnly(s, n) && UnChar(s[0]) == 80 && AdoptMaxlen(Initial(0, 1), s) >= 950
  {
    s := [112, 42] + seq(n - 2, _ => 32);
    assert UnChar(112) == 80 && UnChar(42) == 10 && UnChar(Field(s, 3)) >= 0;
    assert Has(14, 2);
  }

  /** So the limit is honoured for every such peer exactly when its string has one field or at least ten. */
  lemma ShortLengthHonoured(n: nat)
    requires n >= 1
    ensures (forall s :: ShortOnly(s, n) ==> AdoptMaxlen(Initial(0, 1), s) == UnChar(s[0])) <==> n == 1 || n >= 10
  {
    if 2 <= n <= 9 {
      var s := ShortAnnouncementIsMisread(n);
      assert ShortOnly(s, n) && AdoptMaxlen(Initial(0, 1), s) != UnChar(s[0]);
    } else {
      forall s | ShortOnly(s, n)
        ensures AdoptMaxlen(Initial(0, 1), s) == UnChar(s[0])
      {
        if n >= 10 {
          BothLacks(14, UnChar(s[9]));
        }
      }
    }
  }

  lemma BothLacks(mine: int, theirs: int)
    requires !Has(theirs, CAP_LP)
    ensures !Has(Both(mine, theirs), CAP_LP)
  {
  }
}
