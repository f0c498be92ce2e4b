/**
 Steps the two programs can really take, and the states they cannot leave. The
 driver reads into the first free slot, and a packet is accepted only if its block
 check is, which depends on what the packet says, with check type 2 and wherever parity
 alters it. Each end keeps only the packet it sent last, so an acknowledgement can be
 lost for good.
 */
module Impasse {
  import opened Bytes
  import opened Codec
  import opened Negotiation
  import opened Engine
  import opened Slots
  import opened Transfer
  import opened Wire
  import BlockCheck
  import Print = Packet
  import Framing

  // ---- Feasible steps ----

  /** The check type K_RUN reads a packet with. */
  function CheckInForce(k: KState, p: Packet): int {
    if p.typ == S || k.state == S_INIT then 1 else k.par.bct
  }

  /**
   The block check of an undamaged packet is accepted, over what the reader's parity leaves
   of its data. An E packet may always carry a type-1 check.
   */
  predicate Readable(k: KState, p: Packet) {
    p.typ == E || CheckFits(CheckInForce(k, p), k.par.parity != 0, p)
  }

  /** A step of the two programs and the lines: the driver's slot, and no packet accepted against its check. */
  predicate Feasible(c: Setup, y: Sys, a: Action) {
    && Enabled(c, y, a)
    && match a
       case LoseForward(_) => true
       case LoseBackward(_) => true
       case DeliverForward(slot, _) => slot == FirstFree(y.r.slots, 0) && Readable(y.r, y.fwd[0])
       case DeliverBackward(slot, _, _) => slot == FirstFree(y.s.slots, 0) && Readable(y.s, y.back[0])
       case RefuseForward(slot, _) => slot == FirstFree(y.r.slots, 0)
       case RefuseBackward(slot, _) => slot == FirstFree(y.s.slots, 0)
       case NoiseAtReceiver(slot, _) => slot == FirstFree(y.r.slots, 0)
       case NoiseAtSender(slot, _) => slot == FirstFree(y.s.slots, 0)
  }

  /** A step on perfect lines: the next packet is read, and refused only if its check is not acceptable as printed. */
  predicate Faultless(c: Setup, y: Sys, a: Action) {
    && Feasible(c, y, a)
    && match a
       case DeliverForward(_, _) => true
       case DeliverBackward(_, _, _) => true
       case RefuseForward(_, _) => !Readable(y.r, y.fwd[0])
       case RefuseBackward(_, _) => !Readable(y.s, y.back[0])
       case _ => false
  }

  lemma CanReadForward(c: Setup, y: Sys, slot: nat, len: int)
    requires y.rOut.Ok? && y.fwd != [] && slot < |y.r.slots| && slot == FirstFree(y.r.slots, 0) && Wellformed(y.r)
    ensures Readable(y.r, y.fwd[0]) ==> Faultless(c, y, DeliverForward(slot, len))
    ensures !Readable(y.r, y.fwd[0]) ==> Faultless(c, y, RefuseForward(slot, len))
  {
    hide Readable;
    hide Wellformed;
    hide FirstFree;
  }

  lemma CanReadBackward(c: Setup, y: Sys, slot: nat, len: int, fill: Fill)
    requires y.sOut.Ok? && y.back != [] && slot < |y.s.slots| && slot == FirstFree(y.s.slots, 0) && Wellformed(y.s)
    requires LegalFill(y.s, Intact(SeenBy(y.s, y.back[0]), len), fill)
    ensures Readable(y.s, y.back[0]) ==> Faultless(c, y, DeliverBackward(slot, len, fill))
    ensures !Readable(y.s, y.back[0]) ==> Faultless(c, y, RefuseBackward(slot, len))
  {
    hide Readable;
    hide Wellformed;
    hide LegalFill;
    hide FirstFree;
  }

  lemma CanHearNoise(c: Setup, y: Sys, slot: nat, rx: Rx)
    requires !rx.Intact?
    ensures y.rOut.Ok? && slot < |y.r.slots| && slot == FirstFree(y.r.slots, 0) && Wellformed(y.r) ==>
              Feasible(c, y, NoiseAtReceiver(slot, rx))
    ensures y.sOut.Ok? && slot < |y.s.slots| && slot == FirstFree(y.s.slots, 0) && Wellformed(y.s) ==>
              Feasible(c, y, NoiseAtSender(slot, rx))
  {
    hide Wellformed;
    hide FirstFree;
  }

  lemma BothWellformed(c: Setup, y: Sys)
    requires Inv(c, y)
    ensures Wellformed(y.s) && Wellformed(y.r) && |y.s.slots| == |y.r.slots| == 4
  {
    InvariantMeansPrefix(c, y);
    Roles(c, y);
  }

  // ---- What has to be accepted ----

  /** The check type of a packet of the sender, and of its acknowledgement. */
  function CheckOn(c: Setup, p: Packet): int {
    if p.typ == S then 1 else c.bs
  }

  /** What the receiver's acknowledgement of a packet says. */
  function Echo(c: Setup, p: Packet): seq<byte> {
    if p.typ == S then Reply(c)
    else if p.typ == F then
      match Decode(Code(c), p.data)
      case None => []
      case Some(name) => name
    else if p.typ == A then [Y]
    else []
  }

  /** The check of a packet of the sender is accepted; no parity alters such a packet. */
  predicate CurFits(c: Setup, p: Packet) {
    CheckFits(CheckOn(c, p), false, p)
  }

  /** Whether the sender reads the acknowledgement of a packet without eighth bits. */
  predicate AckStripped(c: Setup, p: Packet) {
    if p.typ == S then c.ps != 0 else Stripped(c)
  }

  /** The check of an acknowledgement of `cur` is accepted over what the sender sees of it. */
  predicate AckFits(c: Setup, cur: Packet, ack: Packet) {
    CheckFits(CheckOn(c, cur), AckStripped(c, cur), ack)
  }

  /** Both the packet and its acknowledgement have acceptable checks. */
  predicate Exchangeable(c: Setup, p: Packet) {
    CurFits(c, p) && AckFits(c, p, Packet(p.sq, Y, Echo(c, p)))
  }

  /** Where eighth bits are stripped, no file name has one. */
  predicate SevenBit(c: Setup) {
    forall i :: 0 <= i < |c.files| ==> Crosses(Stripped(c), c.files[i].name)
  }

  /** Unless type 2 was asked for, every packet has that can cross the lines together with its acknowledgement. */
  lemma OtherChecksFit(c: Setup, p: Packet)
    requires GoodSetup(c) && c.bs != 2 && Crosses(false, p.data)
    requires p.typ == S || Crosses(Stripped(c), Echo(c, p))
    ensures Exchangeable(c, p)
  {
    hide Decode;
    hide Reply;
    hide CheckFits;
    hide BlockCheck.Chk2;
    hide Print.Header;
    hide Crosses;
    OpeningCrosses(c);
    if p.typ == S {
      MoreCrosses(AckStripped(c, p), Reply(c));
    }
    UnalteredFits(CheckOn(c, p), false, p);
    UnalteredFits(CheckOn(c, p), AckStripped(c, p), Packet(p.sq, Y, Echo(c, p)));
  }

  // ---- States without a way on ----

  /** An acknowledgement of the current packet that will be accepted is on its way. */
  predicate AckUnderway(c: Setup, y: Sys) {
    exists i :: 0 <= i < |y.back| && y.back[i].typ == Y && y.back[i].sq == y.cur.sq
                && AckFits(c, y.cur, y.back[i])
  }

  /** A receiver that has accepted `cur` would, reading it again, repeat an acceptable acknowledgement. */
  predicate WouldRepeat(c: Setup, cur: Packet, k: KState) {
    && k.opkt.Some? && k.opkt.value.typ == Y
    && CurFits(c, cur) && AckFits(c, cur, k.opkt.value)
    && var slot := FirstFree(k.slots, 0);
       slot >= 0 && !Exhausted(k, slot)
  }

  /** The current packet can still be acknowledged. */
  predicate Acknowledgeable(c: Setup, y: Sys) {
    if Ahead(y) then AckUnderway(c, y) || (y.rOut.Ok? && WouldRepeat(c, y.cur, y.r))
    else Exchangeable(c, y.cur)
  }

  /** Each end that has still to read has a slot to read into. */
  predicate Supplied(y: Sys) {
    FirstFree(y.s.slots, 0) >= 0 && (y.rOut.Ok? ==> FirstFree(y.r.slots, 0) >= 0)
  }

  /** An end has given up or has no slot left, or the current packet can no longer be acknowledged. */
  predicate Blocked(c: Setup, y: Sys) {
    !y.sOut.Done? && (y.sOut.Failed? || y.rOut.Failed? || !Supplied(y) || !Acknowledgeable(c, y))
  }

  // ---- They stay without one ----

  lemma FirstFreeAgain(slots: seq<Slot>, n: nat, x: Slot, i: nat)
    requires n < |slots| && i <= n && FirstFree(slots, i) == n && x.len < 1
    ensures FirstFree(slots[n := x], i) == n
    decreases n - i
  {
    if i < n {
      assert slots[i].len >= 1;
      FirstFreeAgain(slots, n, x, i + 1);
    }
  }

  /** A call of the receiver that acknowledges `cur` neither now nor later. */
  predicate StaysSilent(c: Setup, cur: Packet, k: KState, res: Res) {
    || res.out.Failed?
    || (&& res.k.r_seq == k.r_seq
        && (forall i :: 0 <= i < |res.sent| ==> res.sent[i].typ != Y || !AckFits(c, cur, res.sent[i]))
        && !WouldRepeat(c, cur, res.k))
  }

  lemma SilentOnNoise(c: Setup, cur: Packet, k: KState, slot: nat, rx: Rx, fill: Fill)
    requires k.what.Receiving? && slot == FirstFree(k.slots, 0) && slot < |k.slots| && Wellformed(k) && !rx.Intact?
    requires !WouldRepeat(c, cur, k)
    ensures StaysSilent(c, cur, k, Run(k, slot, rx, fill))
  {
    hide CurFits;
    hide AckFits;
    FirstFreeAgain(k.slots, slot, k.slots[slot].(len := 0), 0);
    var sl := k.slots;
    assert sl[slot := sl[slot].(len := rx.len)][slot := sl[slot].(len := 0)] == sl[slot := sl[slot].(len := 0)];
  }

  lemma SilentOnRepetition(c: Setup, cur: Packet, k: KState, slot: nat, p: Packet, len: int, fill: Fill)
    requires k.what.Receiving? && slot == FirstFree(k.slots, 0) && slot < |k.slots| && Wellformed(k)
    requires p.typ == E || (p == cur && p.typ != N && p.typ != Y && p.sq == Prev(k.r_seq) && p.sq != k.r_seq)
    requires p.typ == E || CurFits(c, cur)
    requires !WouldRepeat(c, cur, k)
    ensures StaysSilent(c, cur, k, Run(k, slot, Intact(p, len), fill))
  {
    hide RightNumber;
    hide Ascii;
    hide CurFits;
    hide AckFits;
  }

  /** The two ends mean the same check by the packet that matters, and see the same of it. */
  lemma ChecksAgree(c: Setup, y: Sys)
    requires Inv(c, y) && y.sOut.Ok? && !y.rOut.Failed?
    ensures Readable(y.r, y.cur) <==> CurFits(c, y.cur)
    ensures forall p: Packet :: p.typ == Y ==> (Readable(y.s, p) <==> AckFits(c, y.cur, p))
    ensures SeenBy(y.r, y.cur) == y.cur
  {
    EndsMatch(c, y);
    ReceiverState(c, y);
    SenderParity(c, y);
    CurrentIsOrdinary(c, y);
    CurrentIsSeen(c, y);
    hide Inv;
    hide CheckFits;
    hide Seen;
    hide Crosses;
    SameOverEveryLine(CheckOn(c, y.cur), y.r.par.parity != 0, y.cur);
  }

  lemma SameOverEveryLine(check: int, parity: bool, p: Packet)
    requires Crosses(parity, p.data)
    ensures CheckFits(check, parity, p) <==> CheckFits(check, false, p)
  {
    hide Print.CheckPasses;
    SeenAsItIs(parity, p.data);
  }

  lemma SenderParity(c: Setup, y: Sys)
    requires Inv(c, y) && y.sOut.Ok?
    ensures (y.s.par.parity != 0) == AckStripped(c, y.cur)
  {
    hide Progress;
    hide GoodSetup;
    hide ForwardLine;
    hide BackwardLine;
    hide Repeatable;
    hide SenderPar;
    hide ReceiverPar;
    hide Code;
    Negotiated(c);
    OpeningType(c, y);
  }

  lemma ReceiverState(c: Setup, y: Sys)
    requires Inv(c, y)
    ensures y.r.state != S_INIT
  {
    hide Shape;
    hide Decode;
    hide Complete;
    hide ForwardLine;
    hide BackwardLine;
    hide Repeatable;
    hide NameArrived;
    hide AttrsArrived;
    hide AttrField;
  }

  /** The state a delivery starts from: the same, without the packet that is read. */
  predicate Taken(y: Sys, y': Sys) {
    && y' == y.(fwd := y'.fwd, back := y'.back)
    && (y'.back == y.back || (y.back != [] && y'.back == y.back[1..]))
  }

  lemma RepeatingIsNoHelp(c: Setup, y: Sys, y': Sys, res: Res)
    requires !y.sOut.Done? && !y.rOut.Failed? && !Acknowledgeable(c, y)
    requires Taken(y, y') && SenderStays(y', res) && y.cur.typ != E
    ensures Blocked(c, AfterSender(y', res))
  {
    hide WouldRepeat;
    hide Exchangeable;
    hide CurFits;
    hide AckFits;
    assert forall i :: 0 <= i < |y'.back| ==> y'.back[i] in y.back;
    assert AfterSender(y', res).cur == y.cur && AfterSender(y', res).back == y'.back;
  }

  lemma SilenceIsNoHelp(c: Setup, y: Sys, y': Sys, res: Res)
    requires y.sOut.Ok? && Ahead(y) && !Acknowledgeable(c, y)
    requires Taken(y, y') && StaysSilent(c, y.cur, y.r, res)
    ensures Blocked(c, AfterReceiver(y', res))
  {
    hide WouldRepeat;
    hide CurFits;
    hide AckFits;
    var after := AfterReceiver(y', res);
    assert forall i :: 0 <= i < |y'.back| ==> y'.back[i] in y.back;
    assert forall i :: 0 <= i < |after.back| ==> after.back[i] in y'.back || after.back[i] in res.sent;
  }

  /** While the receiver has not accepted a packet whose exchange is impossible, it only objects or repeats. */
  lemma ObjectingIsNoHelp(c: Setup, y: Sys, y': Sys, res: Res)
    requires y.sOut.Ok? && !Ahead(y) && !Exchangeable(c, y.cur)
    requires Taken(y, y') && ReceiverStays(y', res)
    ensures Blocked(c, AfterReceiver(y', res))
  {
    hide Exchangeable;
  }

  lemma AnswerIsEcho(c: Setup, y: Sys, data: seq<byte>)
    requires Inv(c, y) && AnswerText(c, y, data)
    ensures data == Echo(c, y.cur)
  {
    hide Shape;
    hide ForwardLine;
    hide BackwardLine;
    hide Repeatable;
    hide Decode;
    hide Complete;
    hide NameArrived;
    hide AttrsArrived;
    hide AttrField;
    hide Reply;
    hide Code;
    hide GoodSetup;
  }

  /** Accepting the current packet: its acknowledgement goes out and is kept, with the slot free again. */
  lemma AcceptedRun(c: Setup, y: Sys, slot: nat, len: int)
    requires Inv(c, y) && y.rOut.Ok? && !Ahead(y) && slot < 4 && Wellformed(y.r)
    ensures |y.r.slots| == 4
    ensures var res := Run(y.r, slot, Intact(y.cur, len), Fill([], []));
            var answer := Packet(y.cur.sq, Y, Echo(c, y.cur));
            && res.sent == [answer] && res.k.opkt == Some(answer) && !res.out.Failed?
            && res.k.r_seq == Succ(y.cur.sq) && res.k.slots == y.r.slots[slot := Slot(0, 0)]
  {
    hide Inv;
    hide Run;
    hide Receive;
    hide AnswerText;
    hide Echo;
    hide Accepts;
    Roles(c, y);
    var slots := y.r.slots[slot := Slot(len, 0)];
    var acc := Receive(y.r.(slots := slots), y.cur);
    Accepting(c, y, slots, y.r.slots[slot := Slot(0, 0)]);
    AcceptanceSucceeds(c, y, acc, y.r.slots[slot := Slot(0, 0)]);
    ReceiveKeepsSlots(y.r.(slots := slots), y.cur);
    CurrentTaken(c, y, slot, len);
    AnswerData(c, y, slots);
    AnswerIsEcho(c, y, acc.sent[0].data);
    NextWanted(c, y, acc, y.r.slots[slot := Slot(0, 0)]);
  }

  lemma NextWanted(c: Setup, y: Sys, res: Res, slots: seq<Slot>)
    requires Accepts(c, y, res, slots)
    ensures res.k.r_seq == Succ(y.cur.sq)
  {
    hide Progress;
    hide Shape;
    hide Acknowledges;
  }

  lemma NoAckBefore(c: Setup, y: Sys)
    requires Inv(c, y) && !Ahead(y)
    ensures forall i :: 0 <= i < |y.back| ==> y.back[i].typ != Y || y.back[i].sq != y.cur.sq
  {
    hide Progress;
    hide Shape;
    hide ForwardLine;
    hide Repeatable;
    hide Acknowledges;
    Sequence(y.cur.sq);
  }

  /** An acknowledgement that will not be accepted is no help. */
  lemma VainAnswer(c: Setup, y: Sys, y': Sys, res: Res, answer: Packet)
    requires y.sOut.Ok? && y'.cur == y.cur && y'.sOut == y.sOut && y'.back == y.back
    requires forall i :: 0 <= i < |y.back| ==> y.back[i].typ != Y || y.back[i].sq != y.cur.sq
    requires res.sent == [answer] && res.k.opkt == Some(answer) && res.k.r_seq != y.cur.sq
    requires !AckFits(c, y.cur, answer)
    ensures Blocked(c, AfterReceiver(y', res))
  {
    hide CurFits;
    hide AckFits;
    var after := AfterReceiver(y', res);
    assert forall i :: 0 <= i < |after.back| ==> after.back[i] in y.back || after.back[i] == answer;
  }

  /** The receiver accepts, but its acknowledgement will not be. */
  lemma VainAcceptance(c: Setup, y: Sys, slot: nat, len: int)
    requires Inv(c, y) && y.sOut.Ok? && y.rOut.Ok? && !Ahead(y) && slot < 4 && Wellformed(y.r)
    requires CurFits(c, y.cur) && !Exchangeable(c, y.cur)
    requires y.fwd != []
    ensures Blocked(c, AfterReceiver(y.(fwd := y.fwd[1..]), Run(y.r, slot, Intact(y.cur, len), Fill([], []))))
  {
    hide Inv;
    hide Run;
    hide CurFits;
    hide AckFits;
    hide Echo;
    hide Blocked;
    AcceptedRun(c, y, slot, len);
    NoAckBefore(c, y);
    CurrentInRange(c, y);
    Sequence(y.cur.sq);
    VainAnswer(c, y, y.(fwd := y.fwd[1..]), Run(y.r, slot, Intact(y.cur, len), Fill([], [])),
               Packet(y.cur.sq, Y, Echo(c, y.cur)));
  }

  lemma CurrentInRange(c: Setup, y: Sys)
    requires Inv(c, y)
    ensures 0 <= y.cur.sq < 64
  {
    hide Progress;
    hide Shape;
    hide ForwardLine;
    hide BackwardLine;
    hide Repeatable;
  }

  lemma CurrentNumber(c: Setup, y: Sys)
    requires Inv(c, y) && y.sOut.Ok?
    ensures y.s.r_seq == y.cur.sq
  {
    hide Progress;
    hide ForwardLine;
    hide BackwardLine;
    hide Repeatable;
  }

  /** An answer that is accepted, when no acceptable acknowledgement is under way, is not the one wanted. */
  lemma NotTheAck(c: Setup, y: Sys)
    requires Inv(c, y) && y.sOut.Ok? && !y.rOut.Failed? && !Acknowledgeable(c, y)
    requires y.back != [] && Readable(y.s, y.back[0])
    ensures y.back[0].typ != Y || y.back[0].sq != y.s.r_seq
  {
    hide Inv;
    hide WouldRepeat;
    hide Exchangeable;
    hide CurFits;
    hide AckFits;
    hide CheckOn;
    hide CheckInForce;
    CurrentNumber(c, y);
    ChecksAgree(c, y);
    if !Ahead(y) {
      NoAckBefore(c, y);
    }
  }

  lemma AnswerIsNoHelp(c: Setup, y: Sys, slot: nat, len: int, fill: Fill)
    requires Inv(c, y) && y.sOut.Ok? && !y.rOut.Failed? && !Acknowledgeable(c, y)
    requires Feasible(c, y, DeliverBackward(slot, len, fill))
    ensures Blocked(c, Step(c, y, DeliverBackward(slot, len, fill)))
  {
    hide Inv;
    hide Run;
    hide LegalFill;
    hide Wellformed;
    hide Acknowledgeable;
    hide CurFits;
    hide AckFits;
    hide SenderStays;
    hide Blocked;
    CurrentIsOrdinary(c, y);
    NotTheAck(c, y);
    Heads(c, y);
    var y', p := y.(back := y.back[1..]), SeenBy(y.s, y.back[0]);
    StrayIsHarmless(c, y', slot, p, len, fill);
    RepeatingIsNoHelp(c, y, y', Run(y.s, slot, Intact(p, len), fill));
  }

  /** Only an acceptable acknowledgement of the current packet takes the sender forward. */
  lemma SenderCannotHelp(c: Setup, y: Sys, a: Action)
    requires Inv(c, y) && y.sOut.Ok? && !y.rOut.Failed? && !Acknowledgeable(c, y) && Feasible(c, y, a)
    requires a.DeliverBackward? || a.RefuseBackward? || a.NoiseAtSender?
    ensures Blocked(c, Step(c, y, a))
  {
    hide Inv;
    hide Run;
    hide LegalFill;
    hide Wellformed;
    hide Acknowledgeable;
    hide CurFits;
    hide AckFits;
    hide SenderStays;
    hide Blocked;
    CurrentIsOrdinary(c, y);
    Heads(c, y);
    match a {
      case DeliverBackward(slot, len, fill) => AnswerIsNoHelp(c, y, slot, len, fill);
      case RefuseBackward(slot, len) =>
        var y', rx := y.(back := y.back[1..]), Damaged(y.back[0].typ, false, len);
        NoiseIsHarmless(c, y', slot, rx, Fill([], []));
        RepeatingIsNoHelp(c, y, y', Run(y.s, slot, rx, Fill([], [])));
      case NoiseAtSender(slot, rx) =>
        NoiseIsHarmless(c, y, slot, rx, Fill([], []));
        RepeatingIsNoHelp(c, y, y, Run(y.s, slot, rx, Fill([], [])));
    }
  }

  /** Before the packet is accepted: the receiver accepts it in vain, or not at all. */
  lemma PacketIsNoHelp(c: Setup, y: Sys, slot: nat, len: int)
    requires Inv(c, y) && y.sOut.Ok? && y.rOut.Ok? && !Ahead(y) && !Exchangeable(c, y.cur)
    requires Feasible(c, y, DeliverForward(slot, len))
    ensures Blocked(c, Step(c, y, DeliverForward(slot, len)))
  {
    hide Inv;
    hide Run;
    hide Wellformed;
    hide Exchangeable;
    hide CurFits;
    hide AckFits;
    hide ReceiverStays;
    hide Blocked;
    hide CheckOn;
    hide CheckInForce;
    Heads(c, y);
    ChecksAgree(c, y);
    var y', p := y.(fwd := y.fwd[1..]), SeenBy(y.r, y.fwd[0]);
    if p.typ == E || p.sq != y.r.r_seq {
      StrayIsHarmless(c, y', slot, p, len, Fill([], []));
      ObjectingIsNoHelp(c, y, y', Run(y.r, slot, Intact(p, len), Fill([], [])));
    } else {
      WantedIsCurrent(y, y.fwd[0]);
      VainAcceptance(c, y, slot, len);
    }
  }

  lemma UnacceptedStays(c: Setup, y: Sys, a: Action)
    requires Inv(c, y) && y.sOut.Ok? && y.rOut.Ok? && !Ahead(y) && !Exchangeable(c, y.cur) && Feasible(c, y, a)
    requires a.DeliverForward? || a.RefuseForward? || a.NoiseAtReceiver?
    ensures Blocked(c, Step(c, y, a))
  {
    hide Inv;
    hide Run;
    hide Wellformed;
    hide Exchangeable;
    hide CurFits;
    hide AckFits;
    hide ReceiverStays;
    hide Blocked;
    Heads(c, y);
    match a {
      case DeliverForward(slot, len) => PacketIsNoHelp(c, y, slot, len);
      case RefuseForward(slot, len) =>
        var y', rx := y.(fwd := y.fwd[1..]), Damaged(y.fwd[0].typ, false, len);
        NoiseIsHarmless(c, y', slot, rx, Fill([], []));
        ObjectingIsNoHelp(c, y, y', Run(y.r, slot, rx, Fill([], [])));
      case NoiseAtReceiver(slot, rx) =>
        NoiseIsHarmless(c, y, slot, rx, Fill([], []));
        ObjectingIsNoHelp(c, y, y, Run(y.r, slot, rx, Fill([], [])));
    }
  }

  /** After it was accepted: what is read again brings no acceptable acknowledgement. */
  lemma RepetitionIsNoHelp(c: Setup, y: Sys, slot: nat, len: int)
    requires Inv(c, y) && y.sOut.Ok? && y.rOut.Ok? && Ahead(y) && !Acknowledgeable(c, y)
    requires Feasible(c, y, DeliverForward(slot, len))
    ensures Blocked(c, Step(c, y, DeliverForward(slot, len)))
  {
    hide Inv;
    hide Run;
    hide Wellformed;
    hide WouldRepeat;
    hide CurFits;
    hide AckFits;
    hide StaysSilent;
    hide Blocked;
    hide CheckOn;
    hide CheckInForce;
    CurrentIsOrdinary(c, y);
    CurrentInRange(c, y);
    AheadByOne(c, y);
    Heads(c, y);
    Roles(c, y);
    ChecksAgree(c, y);
    Sequence(y.cur.sq);
    var p := SeenBy(y.r, y.fwd[0]);
    SilentOnRepetition(c, y.cur, y.r, slot, p, len, Fill([], []));
    SilenceIsNoHelp(c, y, y.(fwd := y.fwd[1..]), Run(y.r, slot, Intact(p, len), Fill([], [])));
  }

  lemma AheadByOne(c: Setup, y: Sys)
    requires Inv(c, y)
    ensures y.r.r_seq == if Ahead(y) then Succ(y.cur.sq) else y.cur.sq
  {
    hide Progress;
    hide Shape;
    hide ForwardLine;
    hide BackwardLine;
    hide Repeatable;
  }

  lemma UnacknowledgedStays(c: Setup, y: Sys, a: Action)
    requires Inv(c, y) && y.sOut.Ok? && y.rOut.Ok? && Ahead(y) && !Acknowledgeable(c, y) && Feasible(c, y, a)
    requires a.DeliverForward? || a.RefuseForward? || a.NoiseAtReceiver?
    ensures Blocked(c, Step(c, y, a))
  {
    hide Inv;
    hide Run;
    hide Wellformed;
    hide WouldRepeat;
    hide CurFits;
    hide AckFits;
    hide StaysSilent;
    hide Blocked;
    Roles(c, y);
    match a {
      case DeliverForward(slot, len) => RepetitionIsNoHelp(c, y, slot, len);
      case RefuseForward(slot, len) =>
        var rx := Damaged(y.fwd[0].typ, false, len);
        SilentOnNoise(c, y.cur, y.r, slot, rx, Fill([], []));
        SilenceIsNoHelp(c, y, y.(fwd := y.fwd[1..]), Run(y.r, slot, rx, Fill([], [])));
      case NoiseAtReceiver(slot, rx) =>
        SilentOnNoise(c, y.cur, y.r, slot, rx, Fill([], []));
        SilenceIsNoHelp(c, y, y, Run(y.r, slot, rx, Fill([], [])));
    }
  }

  lemma LosingIsNoHelp(c: Setup, y: Sys, i: nat)
    requires Blocked(c, y)
    ensures i < |y.fwd| ==> Blocked(c, y.(fwd := Drop(y.fwd, i)))
    ensures i < |y.back| ==> Blocked(c, y.(back := Drop(y.back, i)))
  {
    hide WouldRepeat;
    hide Exchangeable;
    hide CurFits;
    hide AckFits;
    if i < |y.back| {
      assert forall k :: 0 <= k < |y.back| - 1 ==> Drop(y.back, i)[k] in y.back;
    }
  }

  /** An end that has given up, or has no slot, does nothing more, and the other cannot finish without it. */
  lemma StoppedStays(c: Setup, y: Sys, a: Action)
    requires Inv(c, y) && !y.sOut.Done? && (y.sOut.Failed? || y.rOut.Failed? || !Supplied(y)) && Feasible(c, y, a)
    ensures Blocked(c, Step(c, y, a))
  {
    hide Inv;
    hide Run;
    hide LegalFill;
    hide Wellformed;
    hide Acknowledgeable;
    hide CurFits;
    hide AckFits;
    StepKeepsInvariant(c, y, a);
    Roles(c, Step(c, y, a));
  }

  /** A state without a way on stays one: no fault, and no lack of faults, helps. */
  lemma BlockedStays(c: Setup, y: Sys, a: Action)
    requires Inv(c, y) && Blocked(c, y) && Feasible(c, y, a)
    ensures Blocked(c, Step(c, y, a))
  {
    if y.sOut.Failed? || y.rOut.Failed? || !Supplied(y) {
      StoppedStays(c, y, a);
    } else {
      Roles(c, y);
      hide Inv;
      hide Run;
      hide LegalFill;
      hide Wellformed;
      hide WouldRepeat;
      hide CurFits;
      hide AckFits;
      match a {
        case LoseForward(i) => LosingIsNoHelp(c, y, i);
        case LoseBackward(i) => LosingIsNoHelp(c, y, i);
        case _ =>
          if a.DeliverBackward? || a.RefuseBackward? || a.NoiseAtSender? {
            SenderCannotHelp(c, y, a);
          } else if Ahead(y) {
            UnacknowledgedStays(c, y, a);
          } else {
            UnacceptedStays(c, y, a);
          }
      }
    }
  }

  // ---- Feasible is what the parser does ----

  /**
   The two ways in which a packet is read here are the real ones: in any state of any
   run, the bytes of the current packet as the sender prints it are taken for the packet
   the delivery hands over if it is readable, and refused for their check if it is not.
   */
  lemma ReadableIsRead(c: Setup, ys: seq<Sys>, acts: seq<Action>, i: nat,
                       remote: bool, noise: seq<byte>, tail: seq<byte>, stale: seq<byte>)
    requires GoodSetup(c) && Behaviour(c, ys, acts) && i < |ys|
    requires ys[i].sOut.Ok? && ys[i].rOut.Ok? && !Ahead(ys[i]) && |stale| >= 6
    requires Framing.Noise(Framing.Line(ys[i].r.par.parity != 0, remote, ys[i].r.par.r_maxlen), noise)
    ensures 1 <= ys[i].r.par.bct <= 3 && 1 <= ys[i].s.par.bct <= 3
    ensures var y := ys[i];
            var bytes := Printed(y.s.par, y.cur.typ == S, y.cur);
            ReadAs(y.r.par, remote, false, noise + bytes + tail, tail, stale, SeenBy(y.r, y.cur), Readable(y.r, y.cur))
  {
    hide Inv;
    hide ReadAs;
    hide Printed;
    hide CheckFits;
    hide Crosses;
    AlwaysInvariant(c, ys, acts, i);
    CurrentPacketArrives(c, ys, acts, i, remote, noise, tail, stale);
    ChecksAgree(c, ys[i]);
    CurrentIsOrdinary(c, ys[i]);
    CurrentIsSeen(c, ys[i]);
    var check := if ys[i].cur.typ == S then 1 else c.bs;
    SameOverEveryLine(check, ys[i].r.par.parity != 0, ys[i].cur);
  }

  /** The same for the acknowledgement the receiver keeps, at the sender, which may see it without eighth bits. */
  lemma ReadableAnswerIsRead(c: Setup, ys: seq<Sys>, acts: seq<Action>, i: nat,
                             remote: bool, noise: seq<byte>, tail: seq<byte>, stale: seq<byte>)
    requires GoodSetup(c) && Behaviour(c, ys, acts) && i < |ys|
    requires ys[i].sOut.Ok? && !ys[i].rOut.Failed? && Ahead(ys[i]) && |stale| >= 6
    requires ys[i].r.opkt.Some? && ys[i].r.opkt.value.typ == Y
    requires Framing.Noise(Framing.Line(ys[i].s.par.parity != 0, remote, ys[i].s.par.r_maxlen), noise)
    ensures 1 <= ys[i].r.par.bct <= 3 && 1 <= ys[i].s.par.bct <= 3
    ensures var y, p := ys[i], ys[i].r.opkt.value;
            var bytes := Printed(y.r.par, y.cur.typ == S, p);
            var init := y.s.state == S_INIT;
            ReadAs(y.s.par, remote, init, noise + bytes + tail, tail, stale, SeenBy(y.s, p), Readable(y.s, p))
  {
    hide Inv;
    hide ReadAs;
    hide Printed;
    hide CheckFits;
    hide Seen;
    AlwaysInvariant(c, ys, acts, i);
    AnswerArrives(c, ys, acts, i, remote, noise, tail, stale);
    ChecksAgree(c, ys[i]);
    SenderParity(c, ys[i]);
  }
}
