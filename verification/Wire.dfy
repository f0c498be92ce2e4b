/**
 The transfer over real lines. Every packet the two engines exchange fits its
 buffers, the two ends always expect the same kind of block check on the packets
 that matter, and so what one end prints the other end reads, as far as the parity
 of the line lets it through.
 */
module Wire {
  import opened Bytes
  import opened Codec
  import opened SendCodec
  import opened Negotiation
  import opened Attributes
  import opened Engine
  import opened Transfer
  import BlockCheck
  import Print = Packet
  import Framing

  /** A packet that can be printed and taken apart again: a string as data, and room for it in the packet buffer. */
  predicate Fine(p: Packet) {
    0 <= p.sq < 64 && Graphic(p.typ) && p.typ < 128 && 0 !in p.data && |p.data| <= P_PKTLEN - 4
  }

  predicate AllFine(y: Sys) {
    && Fine(y.cur)
    && (y.s.opkt.Some? ==> Fine(y.s.opkt.value))
    && (y.r.opkt.Some? ==> Fine(y.r.opkt.value))
    && (forall i :: 0 <= i < |y.fwd| ==> Fine(y.fwd[i]))
    && (forall i :: 0 <= i < |y.back| ==> Fine(y.back[i]))
  }

  /** The outcome of a call in which everything sent, and what would be repeated, is fine. */
  predicate FineResult(res: Res) {
    && (forall i :: 0 <= i < |res.sent| ==> Fine(res.sent[i]))
    && (res.k.opkt.Some? ==> Fine(res.k.opkt.value))
  }

  // ---- What each call sends ----

  lemma NothingIsFine(sq: int, typ: byte)
    requires 0 <= sq < 64 && Graphic(typ) && typ < 128
    ensures Fine(Packet(sq, typ, [])) && Fine(Packet(sq, typ, [Y]))
    ensures Fine(Packet(sq, typ, Ascii("Too many retries")))
  {
  }

  lemma RefusalIsFine(k: KState, slot: nat)
    requires slot < |k.slots| && 0 <= k.r_seq < 64
    requires k.opkt.Some? ==> Fine(k.opkt.value)
    ensures FineResult(Refuse(k, slot)) && FineResult(Resend(k))
  {
    hide Fine;
    NothingIsFine(k.r_seq, N);
  }

  lemma WrongNumberIsFine(k: KState, slot: nat, p: Packet)
    requires slot < |k.slots| && 0 <= k.r_seq < 64
    requires k.opkt.Some? ==> Fine(k.opkt.value)
    ensures FineResult(WrongNumber(k, slot, p))
  {
    hide Fine;
    hide Ascii;
    hide Refuse;
    NothingIsFine(0, E);
    RefusalIsFine(Free(k, slot), slot);
  }

  lemma StrayIsFine(k: KState, slot: nat, rx: Rx, fill: Fill)
    requires slot < |k.slots| && Wellformed(k) && 0 <= k.r_seq < 64
    requires k.opkt.Some? ==> Fine(k.opkt.value)
    requires rx.Intact? ==> rx.p.typ == E || rx.p.sq != k.r_seq || (k.what.Sending? && rx.p.typ != Y)
    ensures FineResult(Run(k, slot, rx, fill))
  {
    hide Receive;
    hide Proceed;
    hide WrongNumber;
    hide Refuse;
    hide Resend;
    hide Fine;
    var k1 := k.(slots := k.slots[slot := k.slots[slot].(len := rx.len)]);
    RefusalIsFine(k1, slot);
    RefusalIsFine(Free(k1, slot), slot);
    if rx.Intact? {
      WrongNumberIsFine(k1, slot, rx.p);
      var k2 := k1.(slots := k1.slots[slot := k1.slots[slot].(rtr := 0)]);
      RefusalIsFine(Free(k2, slot), slot);
    }
  }

  /** The answer to the S packet and the one to a file name carry data of their own; all others next to none. */
  predicate AnswerText(c: Setup, y: Sys, data: seq<byte>) {
    match y.s.state
    case S_INIT => data == Reply(c)
    case S_FILE => y.s.next > 0 && Decode(Code(c), y.cur.data).Some? && data == Decode(Code(c), y.cur.data).value
    case S_ATTR => data == [Y]
    case _ => data == []
  }

  predicate Answers(c: Setup, y: Sys, acc: Res) {
    && |acc.sent| == 1 && acc.k.opkt == Some(acc.sent[0])
    && acc.sent[0].typ == Y && acc.sent[0].sq == y.cur.sq && AnswerText(c, y, acc.sent[0].data)
  }

  lemma AnswerData(c: Setup, y: Sys, slots: seq<Slot>)
    requires Inv(c, y) && y.rOut.Ok? && !Ahead(y)
    ensures var acc := Receive(y.r.(slots := slots), y.cur);
            !acc.out.Failed? ==> Answers(c, y, acc)
  {
    hide GoodSetup;
    hide Adopt;
    hide Announce;
    hide ForwardLine;
    hide BackwardLine;
    hide Repeatable;
    hide NameArrived;
    hide AttrsArrived;
    hide Complete;
    hide Decode;
    hide ReadAttrs;
    hide AttrField;
    hide Offer;
    hide Requested;
    hide ReceiverPar;
  }

  lemma AnswerTextIsFine(c: Setup, y: Sys, data: seq<byte>)
    requires Inv(c, y) && AnswerText(c, y, data)
    ensures 0 !in data && |data| <= P_PKTLEN - 4
  {
    hide Decode;
    hide Complete;
    hide ForwardLine;
    hide BackwardLine;
    hide Repeatable;
    hide AttrsArrived;
    hide Code;
    hide SenderPar;
    hide ReceiverPar;
    hide Opening;
    hide Reply;
    hide Pow10;
    OpeningCrosses(c);
  }

  lemma AcceptIsFine(c: Setup, y: Sys, slots: seq<Slot>)
    requires Inv(c, y) && y.rOut.Ok? && !Ahead(y)
    ensures var acc := Receive(y.r.(slots := slots), y.cur); !acc.out.Failed? ==> FineResult(acc)
  {
    hide Inv;
    hide Receive;
    hide AnswerText;
    Heads(c, y);
    AnswerData(c, y, slots);
    var acc := Receive(y.r.(slots := slots), y.cur);
    if !acc.out.Failed? {
      AnswerTextIsFine(c, y, acc.sent[0].data);
    }
  }

  lemma SenderType(c: Setup, y: Sys)
    requires Progress(c, y)
    ensures y.cur.typ in {S, F, A, D, Z, B}
  {
    hide Decode;
    hide NameArrived;
    hide AttrsArrived;
    hide Complete;
    hide AttrField;
    hide Sendable;
  }

  lemma CrossesIsClean(parity: bool, s: seq<byte>)
    requires Crosses(parity, s)
    ensures 0 !in s
  {
  }

  /** Every packet the sender can be waiting to have acknowledged is fine. */
  lemma CurrentIsFine(c: Setup, y: Sys)
    requires GoodSetup(c) && Progress(c, y) && 0 <= y.cur.sq < 64
    ensures Fine(y.cur)
  {
    hide Progress;
    hide GoodSetup;
    hide Crosses;
    CurrentCrosses(c, y);
    SenderType(c, y);
    CrossesIsClean(Stripped(c), y.cur.data);
  }

  lemma AdvanceIsFine(c: Setup, y: Sys, res: Res)
    requires GoodSetup(c) && Advances(c, y, res) && 0 <= y.cur.sq < 64
    ensures FineResult(res)
  {
    hide GoodSetup;
    hide Progress;
    hide Shape;
    hide Fine;
    Sequence(y.cur.sq);
    CurrentIsFine(c, y.(s := res.k, fwd := y.fwd + [res.sent[0]], cur := res.sent[0]));
  }

  lemma ProceedIsFine(c: Setup, y: Sys, slots: seq<Slot>, p: Packet, len: int, fill: Fill)
    requires Holding(c, y, slots, p, len, fill) && y.s.state != S_EOT
    ensures FineResult(Proceed(y.s.(slots := slots), p, fill))
  {
    Heads(c, y);
    hide Inv;
    hide Proceed;
    hide LegalFill;
    hide Acknowledges;
    hide Advances;
    Proceeding(c, y, slots, p, len, fill);
    AdvanceIsFine(c, y, Proceed(y.s.(slots := slots), p, fill));
  }

  // ---- Every run ----

  lemma StartIsFine(c: Setup)
    requires GoodSetup(c)
    ensures AllFine(Start(c))
  {
    hide Announce;
    hide Offer;
    OpeningCrosses(c);
  }

  lemma ForwardIsFine(c: Setup, y: Sys, slot: nat, len: int)
    requires Inv(c, y) && AllFine(y)
    requires y.rOut.Ok? && y.fwd != [] && slot < |y.r.slots| && Wellformed(y.r)
    ensures FineResult(Run(y.r, slot, Intact(SeenBy(y.r, y.fwd[0]), len), Fill([], [])))
  {
    hide Inv;
    hide Run;
    hide Receive;
    hide Fine;
    hide Acknowledges;
    Heads(c, y);
    var p := SeenBy(y.r, y.fwd[0]);
    if p.typ == E || p.sq != y.r.r_seq {
      Sequence(y.cur.sq);
      StrayIsFine(y.r, slot, Intact(p, len), Fill([], []));
    } else {
      WantedIsCurrent(y, y.fwd[0]);
      CurrentIsSeen(c, y);
      hide Carried;
      var slots := y.r.slots[slot := Slot(len, 0)];
      Accepting(c, y, slots, y.r.slots[slot := Slot(0, 0)]);
      ReceiveKeepsSlots(y.r.(slots := slots), p);
      AcceptanceSucceeds(c, y, Receive(y.r.(slots := slots), p), y.r.slots[slot := Slot(0, 0)]);
      CurrentTaken(c, y, slot, len);
      AcceptIsFine(c, y, slots);
    }
  }

  lemma AcceptanceSucceeds(c: Setup, y: Sys, res: Res, slots: seq<Slot>)
    requires Accepts(c, y, res, slots)
    ensures !res.out.Failed?
  {
    hide Progress;
    hide Shape;
    hide Acknowledges;
  }

  lemma BackwardIsFine(c: Setup, y: Sys, slot: nat, len: int, fill: Fill)
    requires Inv(c, y) && AllFine(y)
    requires y.sOut.Ok? && y.back != [] && slot < |y.s.slots| && Wellformed(y.s)
    requires LegalFill(y.s, Intact(SeenBy(y.s, y.back[0]), len), fill)
    ensures FineResult(Run(y.s, slot, Intact(SeenBy(y.s, y.back[0]), len), fill))
  {
    hide Inv;
    hide Run;
    hide Proceed;
    hide Fine;
    hide Acknowledges;
    hide LegalFill;
    Heads(c, y);
    Sequence(y.cur.sq);
    var p := SeenBy(y.s, y.back[0]);
    Roles(c, y);
    if p.typ != Y || p.sq != y.s.r_seq {
      StrayIsFine(y.s, slot, Intact(p, len), fill);
    } else {
      var slots := y.s.slots[slot := Slot(0, 0)];
      AckIsSeen(c, y.cur, y.s, y.back[0]);
      AckTaken(c, y, slot, p, len, fill);
      if y.s.state == S_EOT {
        ProceedAtEnd(y.s.(slots := slots), p, fill);
      } else {
        ProceedIsFine(c, y, slots, p, len, fill);
      }
    }
  }

  lemma StepIsFine(c: Setup, y: Sys, a: Action)
    requires Inv(c, y) && AllFine(y) && Enabled(c, y, a)
    ensures AllFine(Step(c, y, a))
  {
    hide Inv;
    hide Run;
    hide Fine;
    hide LegalFill;
    Heads(c, y);
    Sequence(y.cur.sq);
    match a {
      case LoseForward(i) =>
      case LoseBackward(i) =>
      case DeliverForward(slot, len) => ForwardIsFine(c, y, slot, len);
      case DeliverBackward(slot, len, fill) => BackwardIsFine(c, y, slot, len, fill);
      case RefuseForward(slot, len) => StrayIsFine(y.r, slot, Damaged(y.fwd[0].typ, false, len), Fill([], []));
      case RefuseBackward(slot, len) => StrayIsFine(y.s, slot, Damaged(y.back[0].typ, false, len), Fill([], []));
      case NoiseAtReceiver(slot, rx) => StrayIsFine(y.r, slot, rx, Fill([], []));
      case NoiseAtSender(slot, rx) => StrayIsFine(y.s, slot, rx, Fill([], []));
    }
  }

  /** In every run every packet under way, or kept for repetition, can be printed and taken apart. */
  lemma {:induction false} AlwaysFine(c: Setup, ys: seq<Sys>, acts: seq<Action>, i: nat)
    requires GoodSetup(c) && Behaviour(c, ys, acts) && i < |ys|
    ensures AllFine(ys[i])
    decreases i
  {
    hide Start;
    hide Step;
    hide AllFine;
    hide Inv;
    if i == 0 {
      StartIsFine(c);
    } else {
      AlwaysFine(c, ys, acts, i - 1);
      AlwaysInvariant(c, ys, acts, i - 1);
      StepIsFine(c, ys[i - 1], acts[i - 1]);
    }
  }

  // ---- What is printed at one end is read at the other ----

  /** The bytes of a packet: spkt with the settings `par`; rpar sets check type 1 for the opening exchange. */
  function Printed(par: Params, opening: bool, p: Packet): seq<byte>
    requires opening || 1 <= par.bct <= 3
  {
    Print.Frame(SOH, par.s_eom, if opening then 1 else par.bct, p.sq, p.typ, p.data)
  }

  /**
   readpkt finds a packet in the bytes of the line, and K_RUN, in force `par`, takes it
   apart as `p` if `passes`, and otherwise refuses it because of its block check.
   */
  predicate ReadAs(par: Params, remote: bool, init: bool, input: seq<byte>, tail: seq<byte>, stale: seq<byte>,
                   p: Packet, passes: bool)
    requires 1 <= par.bct <= 3 && |stale| >= 6
  {
    var r := Framing.ScanFrom(Framing.Line(par.parity != 0, remote, par.r_maxlen), Framing.START, input);
    && r.Frame? && r.rest == tail
    && var v := Print.Parse(r.body + stale, par.bct, init);
       if passes then v.Accepted? && v.sq == p.sq && v.typ == p.typ && v.data == p.data
       else v == Print.BadCheck(p.typ)
  }

  /** The block check of a packet comes through, over what a reader with or without parity sees of the data. */
  predicate CheckFits(check: int, parity: bool, p: Packet) {
    1 <= check <= 3 && Print.CheckPasses(check, p.sq, p.typ, p.data, Seen(parity, p.data))
  }

  /** For data that cross the line as they are: always with types 1 and 3, with type 2 only for a sum below 4096. */
  lemma UnalteredFits(check: int, parity: bool, p: Packet)
    requires 1 <= check <= 3 && Crosses(parity, p.data)
    ensures CheckFits(check, parity, p) <==>
              check != 2 || BlockCheck.Chk2(Print.Header(2, p.sq, p.typ, |p.data|) + p.data) < 4096
  {
    hide Print.Header;
    hide Print.CheckPasses;
    hide BlockCheck.Chk2;
    SeenAsItIs(parity, p.data);
    Print.UnalteredPasses(check, p.sq, p.typ, p.data);
  }

  /** One packet over one line, when writer and reader agree on the check. */
  lemma PacketArrives(from: Params, to: KState, opening: bool, init: bool, p: Packet,
                      remote: bool, noise: seq<byte>, tail: seq<byte>, stale: seq<byte>)
    requires Fine(p) && p.typ != E && 1 <= to.par.bct <= 3 && (!opening ==> from.bct == to.par.bct)
    requires opening <==> p.typ == S || init
    requires from.s_eom == CR && to.par.r_maxlen == P_PKTLEN && |stale| >= 6
    requires opening ==> |p.data| == 13
    requires Framing.Noise(Framing.Line(to.par.parity != 0, remote, to.par.r_maxlen), noise)
    ensures ReadAs(to.par, remote, init, noise + Printed(from, opening, p) + tail, tail, stale, SeenBy(to, p),
                   CheckFits(if opening then 1 else to.par.bct, to.par.parity != 0, p))
  {
    hide Framing.ScanFrom;
    hide Print.Parse;
    hide Print.Frame;
    hide Print.Header;
    hide Print.CheckPasses;
    hide Seen;
    hide BlockCheck.Chk2;
    var line := Framing.Line(to.par.parity != 0, remote, to.par.r_maxlen);
    var check := Print.Effective(to.par.bct, p.typ, init);
    assert Print.Printable(check, p.sq, p.typ, p.data);
    Framing.WireRoundTrip(line, noise, to.par.bct, init, p.sq, p.typ, p.data, tail, stale);
  }

  /** The parameters one end writes with and the other reads with. */
  predicate Matched(c: Setup, from: Params, to: Params, opening: bool) {
    && 1 <= from.bct <= 3 && 1 <= to.bct <= 3 && (!opening ==> from.bct == to.bct == c.bs)
    && from.s_eom == CR && to.r_maxlen == P_PKTLEN
    && (!opening && to.parity != 0 ==> Code(c).ebqflg)
  }

  lemma ParametersMatch(c: Setup)
    requires GoodSetup(c)
    ensures Matched(c, SenderPar(c), ReceiverPar(c), false) && Matched(c, ReceiverPar(c), SenderPar(c), false)
    ensures Matched(c, Requested(Offer(c.ps, c.bs, c.sa)), Offer(c.pr, c.br, c.ra), true)
    ensures Matched(c, ReceiverPar(c), Requested(Offer(c.ps, c.bs, c.sa)), true)
  {
    hide Adopt;
    hide Announce;
    NegotiationAgrees(c.ps, c.bs, c.sa, c.pr, c.br, c.ra);
  }

  /** In every state in which it matters, the two ends use the same block check. */
  lemma EndsMatch(c: Setup, y: Sys)
    requires Inv(c, y) && y.sOut.Ok?
    ensures y.cur.typ == S <==> y.s.state == S_INIT
    ensures y.rOut.Ok? && !Ahead(y) ==>
              Matched(c, y.s.par, y.r.par, y.cur.typ == S) && (y.cur.typ == S ==> y.cur == Opening(c))
    ensures !y.rOut.Failed? && Ahead(y) ==> Matched(c, y.r.par, y.s.par, y.cur.typ == S)
  {
    hide Matched;
    hide Decode;
    hide Complete;
    hide NameArrived;
    hide AttrsArrived;
    hide ForwardLine;
    hide BackwardLine;
    hide Repeatable;
    hide SenderPar;
    hide ReceiverPar;
    hide Offer;
    hide Requested;
    hide AttrField;
    ParametersMatch(c);
  }

  /**
   The protocol runs on bytes: in every reachable state, the packet the sender
   waits to have acknowledged, as the sender prints it with its parameters, is
   read by the receiver with its own parameters as exactly that packet, behind any
   noise and whatever its buffer held, or refused for its check. It is refused with
   check type 2 only, and then exactly when its byte sum is not below 4096.
   */
  lemma CurrentPacketArrives(c: Setup, ys: seq<Sys>, acts: seq<Action>, i: nat,
                             remote: bool, noise: seq<byte>, tail: seq<byte>, stale: seq<byte>)
    requires GoodSetup(c) && Behaviour(c, ys, acts) && i < |ys|
    requires ys[i].sOut.Ok? && ys[i].rOut.Ok? && !Ahead(ys[i]) && |stale| >= 6
    requires Framing.Noise(Framing.Line(ys[i].r.par.parity != 0, remote, ys[i].r.par.r_maxlen), noise)
    ensures var y := ys[i];
            var opening := y.cur.typ == S;
            var check := if opening then 1 else c.bs;
            && 1 <= y.r.par.bct <= 3 && 1 <= y.s.par.bct <= 3
            && ReadAs(y.r.par, remote, false, noise + Printed(y.s.par, opening, y.cur) + tail, tail, stale, y.cur,
                      CheckFits(check, y.r.par.parity != 0, y.cur))
            && (CheckFits(check, y.r.par.parity != 0, y.cur) <==>
                  check != 2 || BlockCheck.Chk2(Print.Header(2, y.cur.sq, y.cur.typ, |y.cur.data|) + y.cur.data) < 4096)
  {
    hide Inv;
    hide ReadAs;
    hide Printed;
    hide CheckFits;
    hide Print.Header;
    hide BlockCheck.Chk2;
    hide Seen;
    var y := ys[i];
    AlwaysInvariant(c, ys, acts, i);
    EndsMatch(c, y);
    CurrentIsOrdinary(c, y);
    CurrentIsSeen(c, y);
    CurrentCanBePrinted(c, y);
    if y.cur.typ == S {
      OpeningCrosses(c);
    }
    PacketArrives(y.s.par, y.r, y.cur.typ == S, false, y.cur, remote, noise, tail, stale);
    UnalteredFits(if y.cur.typ == S then 1 else c.bs, y.r.par.parity != 0, y.cur);
  }

  lemma CurrentCanBePrinted(c: Setup, y: Sys)
    requires Inv(c, y)
    ensures Fine(y.cur) && 1 <= c.bs <= 3
  {
    hide Progress;
    hide Shape;
    hide ForwardLine;
    hide BackwardLine;
    hide Repeatable;
    CurrentIsFine(c, y);
  }

  /**
   The same for the acknowledgement of the current packet, which the receiver keeps
   and repeats: the sender reads what the parity of its line leaves of it, or refuses it.
   */
  lemma AnswerArrives(c: Setup, ys: seq<Sys>, acts: seq<Action>, i: nat,
                      remote: bool, noise: seq<byte>, tail: seq<byte>, stale: seq<byte>)
    requires GoodSetup(c) && Behaviour(c, ys, acts) && i < |ys|
    requires ys[i].sOut.Ok? && !ys[i].rOut.Failed? && Ahead(ys[i]) && |stale| >= 6
    requires ys[i].r.opkt.Some? && ys[i].r.opkt.value.typ == Y
    requires Framing.Noise(Framing.Line(ys[i].s.par.parity != 0, remote, ys[i].s.par.r_maxlen), noise)
    ensures var y := ys[i];
            var p := y.r.opkt.value;
            var opening := y.cur.typ == S;
            var init := y.s.state == S_INIT;
            && p.sq == y.s.r_seq && 1 <= y.r.par.bct <= 3 && 1 <= y.s.par.bct <= 3
            && ReadAs(y.s.par, remote, init, noise + Printed(y.r.par, opening, p) + tail, tail, stale, SeenBy(y.s, p),
                      CheckFits(if opening then 1 else c.bs, y.s.par.parity != 0, p))
  {
    hide Inv;
    hide ReadAs;
    hide Printed;
    hide CheckFits;
    hide Seen;
    var y := ys[i];
    AlwaysInvariant(c, ys, acts, i);
    AlwaysFine(c, ys, acts, i);
    EndsMatch(c, y);
    KeptAnswer(c, y);
    if y.cur.typ == S {
      OpeningCrosses(c);
    }
    PacketArrives(y.r.par, y.s, y.cur.typ == S, y.s.state == S_INIT, y.r.opkt.value, remote, noise, tail, stale);
  }

  lemma KeptAnswer(c: Setup, y: Sys)
    requires Inv(c, y) && y.sOut.Ok? && Ahead(y) && y.r.opkt.Some? && y.r.opkt.value.typ == Y
    ensures y.r.opkt.value.sq == y.cur.sq == y.s.r_seq && Acknowledges(c, y.cur, y.r.opkt.value)
  {
    hide Progress;
    hide Shape;
    hide ForwardLine;
    hide BackwardLine;
    hide Acknowledges;
    Sequence(y.cur.sq);
  }

  // ---- The engine's demands are met ----

  lemma ReceiverFit(y: Sys, slot: nat, rx: Rx)
    requires slot < |y.r.slots| && Wellformed(y.r) && y.r.what.Receiving?
    requires rx.Intact? ==> 0 !in rx.p.data
    requires Run(y.r, slot, rx, Fill([], [])).out != Failed(Malformed)
    ensures Fit(y.r, slot, rx)
  {
    hide Run;
  }

  lemma SenderFit(c: Setup, y: Sys, slot: nat, rx: Rx)
    requires Inv(c, y) && y.sOut.Ok? && slot < |y.s.slots| && Wellformed(y.s)
    requires rx.Intact? ==> 0 !in rx.p.data && y.back != [] && rx.p == SeenBy(y.s, y.back[0])
    ensures Fit(y.s, slot, rx)
  {
    hide Inv;
    hide Run;
    hide Adopt;
    hide Config;
    Roles(c, y);
    if Awaited(y.s, rx) {
      AwaitedIsUsable(c, y, rx);
    }
  }

  /**
   In every run each packet that reaches either end is fit for the engine: a
   string, decodable if it is accepted, with negotiated limits that leave room.
   */
  lemma DeliveriesAreFit(c: Setup, ys: seq<Sys>, acts: seq<Action>, i: nat)
    requires GoodSetup(c) && Behaviour(c, ys, acts) && i < |acts|
    ensures match acts[i]
            case DeliverForward(slot, len) => Fit(ys[i].r, slot, Intact(SeenBy(ys[i].r, ys[i].fwd[0]), len))
            case DeliverBackward(slot, len, _) => Fit(ys[i].s, slot, Intact(SeenBy(ys[i].s, ys[i].back[0]), len))
            case RefuseForward(slot, len) => Fit(ys[i].r, slot, Damaged(ys[i].fwd[0].typ, false, len))
            case RefuseBackward(slot, len) => Fit(ys[i].s, slot, Damaged(ys[i].back[0].typ, false, len))
            case NoiseAtReceiver(slot, rx) => Fit(ys[i].r, slot, rx)
            case NoiseAtSender(slot, rx) => Fit(ys[i].s, slot, rx)
            case _ => true
  {
    hide Inv;
    hide Run;
    hide Fit;
    hide LegalFill;
    hide Seen;
    hide Start;
    var y := ys[i];
    AlwaysInvariant(c, ys, acts, i);
    AlwaysInvariant(c, ys, acts, i + 1);
    AlwaysFine(c, ys, acts, i);
    Roles(c, y);
    NeverMalformed(c, ys[i + 1]);
    match acts[i] {
      case DeliverForward(slot, len) =>
        SeenIsClean(y.r.par.parity != 0, y.fwd[0].data);
        ReceiverFit(y, slot, Intact(SeenBy(y.r, y.fwd[0]), len));
      case DeliverBackward(slot, len, fill) =>
        SeenIsClean(y.s.par.parity != 0, y.back[0].data);
        SenderFit(c, y, slot, Intact(SeenBy(y.s, y.back[0]), len));
      case RefuseForward(slot, len) => ReceiverFit(y, slot, Damaged(y.fwd[0].typ, false, len));
      case RefuseBackward(slot, len) => SenderFit(c, y, slot, Damaged(y.back[0].typ, false, len));
      case NoiseAtReceiver(slot, rx) => ReceiverFit(y, slot, rx);
      case NoiseAtSender(slot, rx) => SenderFit(c, y, slot, rx);
      case _ =>
    }
  }

  lemma NeverMalformed(c: Setup, y: Sys)
    requires Inv(c, y)
    ensures y.rOut != Failed(Malformed)
  {
    hide Progress;
    hide ForwardLine;
    hide BackwardLine;
    hide Repeatable;
  }

  /** The parameters in force once the acknowledgement `p` has been taken. */
  function Adopted(k: KState, p: Packet): Params {
    if k.state == S_INIT then Adopt(k.par, p.data) else k.par
  }

  lemma SenderAdopts(c: Setup, y: Sys, p: Packet)
    requires Inv(c, y) && y.sOut.Ok? && Acknowledges(c, y.cur, p)
    ensures Adopted(y.s, p) == SenderPar(c)
  {
    hide Adopt;
    hide Announce;
    hide Decode;
    hide Complete;
    hide ForwardLine;
    hide BackwardLine;
    hide Repeatable;
    hide NameArrived;
    hide AttrsArrived;
    hide AttrField;
    hide Offer;
    hide Requested;
    hide ReceiverPar;
    hide SenderPar;
    Negotiated(c);
  }

  lemma AwaitedIsUsable(c: Setup, y: Sys, rx: Rx)
    requires Inv(c, y) && y.sOut.Ok? && y.back != []
    requires rx.Intact? && rx.p == SeenBy(y.s, y.back[0]) && Awaited(y.s, rx)
    ensures Config(Adopted(y.s, rx.p)).Usable()
  {
    hide Inv;
    hide Adopt;
    hide Config;
    hide SenderPar;
    hide Acknowledges;
    hide Seen;
    Heads(c, y);
    Sequence(y.cur.sq);
    Negotiated(c);
    AckIsSeen(c, y.cur, y.s, y.back[0]);
    SenderAdopts(c, y, rx.p);
  }
}
