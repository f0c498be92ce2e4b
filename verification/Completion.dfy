/**
 Transfers without faults. On perfect lines the two engines take turns, whatever
 fields getpkt chooses to cut. Such a run ends with both sides reporting success
 and every file received if and only if every packet has an acceptable check. Only
 check type 2 can prevent that, or a line with parity and a file name with eighth bits.
 */
module Completion {
  import opened Bytes
  import opened Codec
  import opened SendCodec
  import opened Negotiation
  import opened Engine
  import opened Slots
  import opened Transfer
  import opened Wire
  import opened Impasse
  import BlockCheck
  import Print = Packet

  /** The most packets files `n` on can take: name, attributes, end, one data packet a byte; then B. */
  function PacketsFrom(files: seq<File>, n: nat): nat
    requires n <= |files|
    decreases |files| - n
  {
    if n == |files| then 1 else 3 + |files[n].content| + PacketsFrom(files, n + 1)
  }

  /** The most packets the sender may still send after the current one. */
  function ToGo(k: KState): nat
    requires k.next <= |k.files|
  {
    match k.state
    case S_FILE => 2 + |k.pending| + PacketsFrom(k.files, k.next)
    case S_ATTR => 1 + |k.pending| + PacketsFrom(k.files, k.next)
    case S_DATA => 1 + |k.pending| + PacketsFrom(k.files, k.next)
    case S_EOT => 0
    case _ => PacketsFrom(k.files, k.next)
  }

  /** Exactly one packet is under way: the current one, or its acknowledgement. Or all is done. */
  predicate Turn(y: Sys) {
    && y.s.next <= |y.s.files|
    && if y.sOut.Done? then y.fwd == [] && y.back == []
       else
         && y.sOut.Ok? && !y.rOut.Failed? && Supplied(y)
         && if Ahead(y) then y.fwd == [] && |y.back| == 1 && y.back[0].typ == Y && y.back[0].sq == y.cur.sq
            else y.rOut.Ok? && y.fwd == [y.cur] && y.back == []
  }

  /** The acknowledgement under way is the one the receiver keeps, and says what it has to. */
  predicate Kept(c: Setup, y: Sys) {
    y.back != [] ==> y.back[0] == Packet(y.cur.sq, Y, Echo(c, y.cur)) && y.r.opkt == Some(y.back[0])
  }

  /** Deliveries still to come, at most. */
  function Deliveries(y: Sys): nat
    requires y.s.next <= |y.s.files|
  {
    if y.sOut.Done? then 0 else 2 * ToGo(y.s) + if Ahead(y) then 1 else 2
  }

  predicate Delivery(a: Action) {
    a.DeliverForward? || a.DeliverBackward?
  }

  // ---- A legal field exists ----

  /** A data field that stands for `s`, one group a byte. */
  function Spelled(q: Quoting, s: seq<byte>): seq<byte> {
    if s == [] then [] else EncodeChar(q, s[0]) + Spelled(q, s[1..])
  }

  lemma {:induction false} SpelledStandsFor(q: Quoting, s: seq<byte>)
    requires Sound(q)
    ensures Decode(q, Spelled(q, s)) == Some(s)
    ensures Clear(q, Spelled(q, s)) && |Spelled(q, s)| <= 3 * |s|
  {
    if s != [] {
      hide EncodeChar;
      hide ClearChar;
      RunRoundTrip(q, s[0], 1);
      CharIsClear(q, s[0]);
      SpelledStandsFor(q, s[1..]);
      DecodeAppend(q, EncodeChar(q, s[0]), Spelled(q, s[1..]));
      assert Rep(s[0], 1) + s[1..] == s;
    }
  }

  /** One byte at a time, or nothing when nothing is left. */
  function Nibble(q: Quoting, pending: seq<byte>): Fill {
    if pending == [] then Fill([], []) else Fill(Spelled(q, [pending[0]]), pending[1..])
  }

  lemma NibbleIsDataField(q: Quoting, pending: seq<byte>)
    requires Sound(q)
    ensures DataField(q, pending, Nibble(q, pending))
  {
    hide Decode;
    hide Spelled;
    EmptyField(q, []);
    if pending != [] {
      SpelledStandsFor(q, [pending[0]]);
      EmptyField(q, Spelled(q, [pending[0]]));
      assert [pending[0]] + pending[1..] == pending;
    }
  }

  /** As much of a name as is sure to fit. */
  function Shortened(name: seq<byte>): seq<byte> {
    if |name| <= 665 then name else name[..665]
  }

  lemma ShortenedIsNameField(cfg: SendConfig, name: seq<byte>)
    requires cfg.Usable()
    ensures NameField(cfg, name, Spelled(cfg.q, Shortened(name)))
  {
    hide Decode;
    hide Spelled;
    SpelledStandsFor(cfg.q, Shortened(name));
  }

  /** getpkt can always answer, so the sender is never stuck for want of a field. */
  lemma FieldExists(c: Setup, y: Sys, p: Packet, len: int) returns (fill: Fill)
    requires Inv(c, y) && y.sOut.Ok? && p.typ == Y && p.sq == y.cur.sq && Acknowledges(c, y.cur, p)
    ensures LegalFill(y.s, Intact(p, len), fill)
  {
    hide Decode;
    hide DataField;
    hide NameField;
    hide Sound;
    hide Spelled;
    hide Nibble;
    hide Adopt;
    hide Announce;
    hide Has;
    hide ForwardLine;
    hide BackwardLine;
    hide Repeatable;
    hide Named;
    hide Described;
    hide Flowing;
    hide Ending;
    hide Closing;
    hide EncodeQuoting;
    hide SenderPar;
    hide ReceiverPar;
    hide Offer;
    hide Requested;
    Negotiated(c);
    var q := EncodeQuoting(SenderPar(c));
    if y.s.state == S_INIT || y.s.state == S_EOF {
      fill := Fill([], []);
      if y.s.next < |y.s.files| {
        fill := Fill(Spelled(q, Shortened(y.s.files[y.s.next].name)), []);
        ShortenedIsNameField(Config(SenderPar(c)), y.s.files[y.s.next].name);
      }
    } else {
      fill := Nibble(q, y.s.pending);
      NibbleIsDataField(q, y.s.pending);
    }
  }

  // ---- Taking turns ----

  lemma AckInTurn(c: Setup, y: Sys, res: Res, answer: Packet)
    requires Turn(y) && !y.sOut.Done? && !Ahead(y)
    requires !res.out.Failed? && res.sent == [answer] && res.k.opkt == Some(answer) && res.k.r_seq != y.cur.sq
    requires answer == Packet(y.cur.sq, Y, Echo(c, y.cur)) && FirstFree(res.k.slots, 0) >= 0
    ensures var y' := AfterReceiver(y.(fwd := y.fwd[1..]), res);
            Turn(y') && Kept(c, y') && Deliveries(y') + 1 == Deliveries(y)
  {
    hide ToGo;
    hide FirstFree;
    hide Echo;
  }

  /** The receiver takes the current packet and acknowledges it. */
  lemma ForwardTurn(c: Setup, y: Sys, slot: nat, len: int)
    requires Inv(c, y) && Turn(y) && Feasible(c, y, DeliverForward(slot, len))
    ensures var y' := Step(c, y, DeliverForward(slot, len));
            Turn(y') && Kept(c, y') && Deliveries(y') + 1 == Deliveries(y)
  {
    hide Inv;
    hide Run;
    hide Deliveries;
    hide Readable;
    hide Echo;
    hide Supplied;
    hide FirstFree;
    Ordinary(c, y);
    CurrentIsSeen(c, y);
    AcceptedRun(c, y, slot, len);
    FirstFreeAgain(y.r.slots, slot, Slot(0, 0), 0);
    CurrentInRange(c, y);
    Sequence(y.cur.sq);
    AckInTurn(c, y, Run(y.r, slot, Intact(y.cur, len), Fill([], [])), Packet(y.cur.sq, Y, Echo(c, y.cur)));
  }

  lemma Ordinary(c: Setup, y: Sys)
    requires Inv(c, y)
    ensures y.cur.typ != E && y.cur.typ != N && y.cur.typ != Y
    ensures y.s.next <= |y.s.files| && y.s.files == c.files && |y.s.slots| == |y.r.slots| == 4
    ensures Ahead(y) ==> y.r.r_seq == Succ(y.cur.sq)
    ensures !Ahead(y) ==> y.r.r_seq == y.cur.sq
  {
    hide Decode;
    hide SenderPar;
    hide ReceiverPar;
    hide ForwardLine;
    hide BackwardLine;
    hide Repeatable;
    CurrentIsOrdinary(c, y);
  }

  /** A data field takes something off what is pending, so the sender comes closer to the end with every packet. */
  lemma ProceedingComesCloser(k: KState, p: Packet, len: int, fill: Fill)
    requires k.what.Sending? && Wellformed(k) && k.next <= |k.files|
    requires p.typ == Y && p.sq == k.r_seq && !Cancelled(k, p) && LegalFill(k, Intact(p, len), fill)
    requires k.state in {S_INIT, S_FILE, S_ATTR, S_DATA, S_EOF}
    ensures var res := Proceed(k, p, fill);
            && res.k.files == k.files && res.k.next <= |k.files|
            && ToGo(res.k) < ToGo(k)
  {
    hide Decode;
    hide NameField;
    hide Adopt;
    hide Has;
    hide EncodeQuoting;
    hide AttrField;
    if k.pending != [] {
      EmptyField(EncodeQuoting(k.par), fill.field);
    }
  }

  /** The acknowledgement in turn is the one the sender waits for. */
  lemma AnswerInTurn(c: Setup, y: Sys)
    requires Inv(c, y) && Turn(y) && !y.sOut.Done? && Ahead(y)
    ensures |y.back| == 1 && y.back[0].typ == Y && y.back[0].sq == y.cur.sq
    ensures Acknowledges(c, y.cur, SeenBy(y.s, y.back[0]))
  {
    hide Inv;
    hide Acknowledges;
    hide Seen;
    Heads(c, y);
    CurrentInRange(c, y);
    Sequence(y.cur.sq);
    AckIsSeen(c, y.cur, y.s, y.back[0]);
  }

  lemma SenderCanProceed(c: Setup, y: Sys, p: Packet)
    requires Inv(c, y) && y.sOut.Ok? && Acknowledges(c, y.cur, p)
    ensures y.s.what.Sending? && y.s.r_seq == y.cur.sq
    ensures !Cancelled(y.s, p)
    ensures y.s.state in {S_INIT, S_FILE, S_ATTR, S_DATA, S_EOF, S_EOT}
    ensures y.rOut.Done? ==> y.s.state == S_EOT
    ensures y.s.state == S_EOT ==> ToGo(y.s) == 0
  {
    hide Decode;
    hide SenderPar;
    hide ReceiverPar;
    hide ForwardLine;
    hide BackwardLine;
    hide Repeatable;
  }

  /** The sender's call on the acknowledgement in turn. */
  lemma SenderProceeds(c: Setup, y: Sys, slot: nat, len: int, fill: Fill)
    requires Inv(c, y) && Turn(y) && !y.sOut.Done? && Ahead(y) && y.s.state != S_EOT && slot < |y.s.slots|
    requires Wellformed(y.s) && LegalFill(y.s, Intact(SeenBy(y.s, y.back[0]), len), fill)
    ensures var res := Run(y.s, slot, Intact(SeenBy(y.s, y.back[0]), len), fill);
            && res.out.Ok? && |res.sent| == 1 && res.sent[0].typ != E && res.sent[0].sq == Succ(y.cur.sq)
            && res.k.slots == y.s.slots[slot := Slot(0, 0)]
            && res.k.files == y.s.files && res.k.next <= |y.s.files| && ToGo(res.k) < ToGo(y.s)
  {
    AnswerInTurn(c, y);
    Ordinary(c, y);
    var p := SeenBy(y.s, y.back[0]);
    var slots := y.s.slots[slot := Slot(0, 0)];
    SenderCanProceed(c, y, p);
    hide Inv;
    hide Run;
    hide Proceed;
    hide Acknowledges;
    hide LegalFill;
    hide ToGo;
    hide Wellformed;
    hide Turn;
    AckTaken(c, y, slot, p, len, fill);
    SlotsDoNotMatter(y.s, slots, p, len, fill);
    SlotsDoNotCount(y.s, slots);
    Proceeding(c, y, slots, p, len, fill);
    WhatIsSent(c, y, Proceed(y.s.(slots := slots), p, fill));
    hide Advances;
    ProceedingComesCloser(y.s.(slots := slots), p, len, fill);
    ProceedKeepsSlots(y.s.(slots := slots), p, fill);
  }

  lemma WhatIsSent(c: Setup, y: Sys, res: Res)
    requires Advances(c, y, res)
    ensures res.out.Ok? && |res.sent| == 1 && res.sent[0].typ != E && res.sent[0].sq == Succ(y.cur.sq)
  {
    hide Progress;
    hide Shape;
  }

  lemma SlotsDoNotCount(k: KState, slots: seq<Slot>)
    requires k.next <= |k.files|
    ensures ToGo(k.(slots := slots)) == ToGo(k)
  {
  }

  lemma SenderEnds(c: Setup, y: Sys, slot: nat, len: int, fill: Fill)
    requires Inv(c, y) && Turn(y) && !y.sOut.Done? && Ahead(y) && y.s.state == S_EOT && slot < |y.s.slots|
    requires Wellformed(y.s)
    ensures var res := Run(y.s, slot, Intact(SeenBy(y.s, y.back[0]), len), fill); res.out.Done? && res.sent == []
    ensures Run(y.s, slot, Intact(SeenBy(y.s, y.back[0]), len), fill).k == y.s.(slots := y.s.slots[slot := Slot(0, 0)])
  {
    hide Inv;
    hide Run;
    hide Proceed;
    hide Acknowledges;
    AnswerInTurn(c, y);
    Ordinary(c, y);
    var p := SeenBy(y.s, y.back[0]);
    AckTaken(c, y, slot, p, len, fill);
    ProceedAtEnd(y.s.(slots := y.s.slots[slot := Slot(0, 0)]), p, fill);
  }

  lemma PacketInTurn(c: Setup, y: Sys, res: Res)
    requires Turn(y) && !y.sOut.Done? && Ahead(y) && y.rOut.Ok?
    requires res.out.Ok? && |res.sent| == 1 && res.sent[0].typ != E && res.sent[0].sq == y.r.r_seq
    requires res.k.files == y.s.files && res.k.next <= |y.s.files| && ToGo(res.k) < ToGo(y.s)
    requires FirstFree(res.k.slots, 0) >= 0
    ensures var y' := AfterSender(y.(back := y.back[1..]), res);
            Turn(y') && Kept(c, y') && Deliveries(y') < Deliveries(y)
  {
    hide ToGo;
    hide FirstFree;
  }

  lemma EndInTurn(c: Setup, y: Sys, res: Res)
    requires Turn(y) && !y.sOut.Done? && Ahead(y) && res.out.Done? && res.sent == []
    requires res.k == y.s.(slots := res.k.slots) && ToGo(y.s) == 0
    ensures var y' := AfterSender(y.(back := y.back[1..]), res);
            Turn(y') && Kept(c, y') && Deliveries(y') < Deliveries(y)
  {
    hide ToGo;
    hide Supplied;
  }

  /** The sender takes the acknowledgement: it sends its next packet, or is done. */
  lemma BackwardTurn(c: Setup, y: Sys, slot: nat, len: int, fill: Fill)
    requires Inv(c, y) && Turn(y) && Feasible(c, y, DeliverBackward(slot, len, fill))
    ensures var y' := Step(c, y, DeliverBackward(slot, len, fill));
            Turn(y') && Kept(c, y') && Deliveries(y') < Deliveries(y)
  {
    hide Inv;
    hide Run;
    hide ToGo;
    hide LegalFill;
    hide Readable;
    hide FirstFree;
    hide Deliveries;
    hide Kept;
    hide Seen;
    Ordinary(c, y);
    SenderCanProceedInTurn(c, y);
    var res := Run(y.s, slot, Intact(SeenBy(y.s, y.back[0]), len), fill);
    if y.s.state == S_EOT {
      SenderEnds(c, y, slot, len, fill);
      EndInTurn(c, y, res);
    } else {
      SenderProceeds(c, y, slot, len, fill);
      FirstFreeAgain(y.s.slots, slot, Slot(0, 0), 0);
      PacketInTurn(c, y, res);
    }
  }

  lemma SenderCanProceedInTurn(c: Setup, y: Sys)
    requires Inv(c, y) && Turn(y) && !y.sOut.Done? && y.back != []
    ensures y.rOut.Done? ==> y.s.state == S_EOT
    ensures y.s.state == S_EOT ==> ToGo(y.s) == 0
  {
    AnswerInTurn(c, y);
    SenderCanProceed(c, y, SeenBy(y.s, y.back[0]));
  }

  // ---- Every run without faults ----

  lemma AnswerCanBeRead(c: Setup, y: Sys) returns (a: Action)
    requires Inv(c, y) && Turn(y) && !y.sOut.Done? && Ahead(y)
    ensures Faultless(c, y, a) && (Delivery(a) <==> Readable(y.s, y.back[0]))
  {
    hide Inv;
    hide LegalFill;
    hide Wellformed;
    hide Acknowledges;
    hide Readable;
    hide Faultless;
    hide FirstFree;
    hide Deliveries;
    BothWellformed(c, y);
    AnswerInTurn(c, y);
    var slot := FirstFree(y.s.slots, 0);
    var fill := FieldExists(c, y, SeenBy(y.s, y.back[0]), 0);
    CanReadBackward(c, y, slot, 0, fill);
    a := if Readable(y.s, y.back[0]) then DeliverBackward(slot, 0, fill) else RefuseBackward(slot, 0);
  }

  lemma PacketCanBeRead(c: Setup, y: Sys) returns (a: Action)
    requires Inv(c, y) && Turn(y) && !y.sOut.Done? && !Ahead(y)
    ensures Faultless(c, y, a) && (Delivery(a) <==> Readable(y.r, y.cur))
  {
    hide Inv;
    hide Wellformed;
    hide Readable;
    hide Faultless;
    hide FirstFree;
    hide Deliveries;
    BothWellformed(c, y);
    var slot := FirstFree(y.r.slots, 0);
    CanReadForward(c, y, slot, 0);
    a := if Readable(y.r, y.cur) then DeliverForward(slot, 0) else RefuseForward(slot, 0);
  }

  /** While the transfer is not over, the packet under way is read: accepted if its check is, refused if not. */
  lemma TurnIsPossible(c: Setup, y: Sys) returns (a: Action)
    requires Inv(c, y) && Turn(y) && !y.sOut.Done?
    ensures Faultless(c, y, a)
    ensures Delivery(a) <==> if Ahead(y) then Readable(y.s, y.back[0]) else Readable(y.r, y.cur)
  {
    hide Inv;
    hide Faultless;
    hide Readable;
    if Ahead(y) {
      a := AnswerCanBeRead(c, y);
    } else {
      a := PacketCanBeRead(c, y);
    }
  }

  /** In turn, a packet that is refused, or whose acknowledgement is, is in the way for good. */
  lemma UnreadableBlocks(c: Setup, y: Sys)
    requires Inv(c, y) && Turn(y) && Kept(c, y) && !y.sOut.Done?
    requires if Ahead(y) then !Readable(y.s, y.back[0]) else !Readable(y.r, y.cur)
    ensures Blocked(c, y) && (c.bs == 2 || (Ahead(y) && !SevenBit(c)))
  {
    hide Inv;
    hide Echo;
    hide Readable;
    hide SevenBit;
    hide CurFits;
    hide AckFits;
    hide FirstFree;
    hide Deliveries;
    ChecksAgree(c, y);
    OnlyTwoOrEighthBits(c, y);
    if Ahead(y) {
      UnfitAnswer(c, y);
    } else {
      UnfitPacket(c, y);
    }
  }

  lemma UnfitAnswer(c: Setup, y: Sys)
    requires Turn(y) && Kept(c, y) && !y.sOut.Done? && Ahead(y) && !AckFits(c, y.cur, y.back[0])
    ensures Blocked(c, y)
  {
    hide CurFits;
    hide AckFits;
    hide FirstFree;
    hide Supplied;
    hide Echo;
  }

  lemma UnfitPacket(c: Setup, y: Sys)
    requires Turn(y) && !y.sOut.Done? && !Ahead(y) && !CurFits(c, y.cur)
    ensures Blocked(c, y)
  {
    hide CurFits;
    hide AckFits;
    hide FirstFree;
    hide Supplied;
    hide Echo;
  }

  /** Names without eighth bits, where these are stripped, come back as they went. */
  lemma EchoCrosses(c: Setup, y: Sys)
    requires Inv(c, y) && SevenBit(c)
    ensures y.cur.typ == S || Crosses(Stripped(c), Echo(c, y.cur))
  {
    hide Shape;
    hide ForwardLine;
    hide BackwardLine;
    hide Repeatable;
    hide Decode;
    hide Complete;
    hide AttrsArrived;
    hide AttrField;
    hide Code;
    hide Sendable;
    hide Config;
    hide GoodSetup;
    assert Crosses(Stripped(c), []) && Crosses(Stripped(c), [Y]);
    if y.s.state == S_FILE {
      PrefixCrosses(Stripped(c), c.files[y.s.next - 1].name, Echo(c, y.cur));
    }
  }

  lemma PrefixCrosses(parity: bool, s: seq<byte>, t: seq<byte>)
    requires Crosses(parity, s) && t <= s
    ensures Crosses(parity, t)
  {
  }

  /** With check types 1 and 3 every packet fits, and every acknowledgement of one that has no eighth bits to lose. */
  lemma OnlyTwoOrEighthBits(c: Setup, y: Sys)
    requires Inv(c, y)
    ensures c.bs != 2 ==> CurFits(c, y.cur)
    ensures c.bs != 2 && SevenBit(c) ==> AckFits(c, y.cur, Packet(y.cur.sq, Y, Echo(c, y.cur)))
  {
    CurrentCanBePrinted(c, y);
    hide Inv;
    hide Echo;
    hide CheckFits;
    hide SevenBit;
    hide BlockCheck.Chk2;
    hide Print.Header;
    if c.bs != 2 {
      UnalteredFits(CheckOn(c, y.cur), false, y.cur);
      if SevenBit(c) {
        EchoCrosses(c, y);
        OtherChecksFit(c, y.cur);
      }
    }
  }

  /** The packet under way in turn is refused only if the two ends cannot get past it. */
  lemma RefusalBlocks(c: Setup, y: Sys, a: Action)
    requires Inv(c, y) && Turn(y) && Kept(c, y) && Faultless(c, y, a) && !Delivery(a)
    ensures Blocked(c, y) && (c.bs == 2 || !SevenBit(c))
  {
    hide Inv;
    hide Wellformed;
    hide Readable;
    hide Blocked;
    hide FirstFree;
    UnreadableBlocks(c, y);
  }

  lemma {:induction false} FaultFreeTurns(c: Setup, ys: seq<Sys>, acts: seq<Action>, i: nat)
    requires GoodSetup(c) && Behaviour(c, ys, acts) && i < |ys|
    requires forall j :: 0 <= j < |acts| ==> Faultless(c, ys[j], acts[j])
    requires forall j :: 0 <= j < i ==> Delivery(acts[j])
    ensures Turn(ys[i]) && Kept(c, ys[i]) && i + Deliveries(ys[i]) <= 2 * PacketsFrom(c.files, 0) + 2
    decreases i
  {
    hide Step;
    hide Enabled;
    hide Turn;
    hide Readable;
    if i == 0 {
      StartsTheTurn(c);
    } else {
      FaultFreeTurns(c, ys, acts, i - 1);
      AlwaysInvariant(c, ys, acts, i - 1);
      match acts[i - 1] {
        case DeliverForward(slot, len) => ForwardTurn(c, ys[i - 1], slot, len);
        case DeliverBackward(slot, len, fill) => BackwardTurn(c, ys[i - 1], slot, len, fill);
      }
    }
  }

  lemma StartsTheTurn(c: Setup)
    ensures Turn(Start(c)) && Kept(c, Start(c)) && Deliveries(Start(c)) == 2 * PacketsFrom(c.files, 0) + 2
  {
    hide Announce;
    hide Offer;
  }

  lemma {:induction false} BlockedForEver(c: Setup, ys: seq<Sys>, acts: seq<Action>, i: nat, j: nat)
    requires GoodSetup(c) && Behaviour(c, ys, acts) && i <= j < |ys|
    requires forall k :: 0 <= k < |acts| ==> Feasible(c, ys[k], acts[k])
    requires Blocked(c, ys[i])
    ensures Blocked(c, ys[j])
    decreases j
  {
    hide Step;
    hide Feasible;
    hide Enabled;
    hide Blocked;
    if j > i {
      BlockedForEver(c, ys, acts, i, j - 1);
      AlwaysInvariant(c, ys, acts, j - 1);
      BlockedStays(c, ys[j - 1], acts[j - 1]);
    }
  }

  /** Every packet read so far was accepted. */
  predicate AllRead(acts: seq<Action>) {
    forall j :: 0 <= j < |acts| ==> Delivery(acts[j])
  }

  /** The first packet that is refused. */
  lemma {:induction false} FirstRefusal(acts: seq<Action>, n: nat) returns (i: nat)
    requires n <= |acts| && !AllRead(acts[..n])
    ensures i < n && !Delivery(acts[i]) && forall j :: 0 <= j < i ==> Delivery(acts[j])
    decreases n
  {
    if AllRead(acts[..n - 1]) {
      i := n - 1;
      assert forall j :: 0 <= j < n - 1 ==> acts[..n - 1][j] == acts[j];
    } else {
      i := FirstRefusal(acts, n - 1);
    }
  }

  lemma RefusedRun(c: Setup, ys: seq<Sys>, acts: seq<Action>)
    requires GoodSetup(c) && Behaviour(c, ys, acts) && !AllRead(acts)
    requires forall j :: 0 <= j < |acts| ==> Faultless(c, ys[j], acts[j])
    ensures Blocked(c, ys[|acts|]) && (c.bs == 2 || !SevenBit(c))
  {
    hide Step;
    hide Enabled;
    hide Turn;
    hide Blocked;
    hide Readable;
    assert acts[..|acts|] == acts;
    var i := FirstRefusal(acts, |acts|);
    FaultFreeTurns(c, ys, acts, i);
    AlwaysInvariant(c, ys, acts, i);
    RefusalBlocks(c, ys[i], acts[i]);
    BlockedForEver(c, ys, acts, i, |acts|);
  }

  /**
   When a transfer completes on perfect lines. A run in which every packet is
   accepted has a bounded length, can be continued until the sender is done, and
   then every file has been received; a run in which one packet is refused never
   completes. So a run that is over has completed if and only if nothing was
   refused, which can only happen with check type 2, or with parity and a file name
   that has eighth bits.
   */
  lemma FaultFreeRunCompletes(c: Setup, ys: seq<Sys>, acts: seq<Action>)
    requires GoodSetup(c) && Behaviour(c, ys, acts)
    requires forall j :: 0 <= j < |acts| ==> Faultless(c, ys[j], acts[j])
    ensures var y := ys[|acts|];
            && (AllRead(acts) ==>
                  && |acts| <= 2 * PacketsFrom(c.files, 0) + 2
                  && (y.sOut.Done? || exists a :: Faultless(c, y, a)))
            && (!AllRead(acts) ==> Blocked(c, y) && (c.bs == 2 || !SevenBit(c)))
            && ((forall a :: !Faultless(c, y, a)) ==> (y.sOut.Done? <==> AllRead(acts)))
            && (y.sOut.Done? ==> AllRead(acts) && y.rOut.Done? && Complete(c, y.r.log, |c.files|))
  {
    hide Inv;
    hide Enabled;
    hide Readable;
    hide Faultless;
    var y := ys[|acts|];
    if AllRead(acts) {
      FaultFreeTurns(c, ys, acts, |acts|);
      AlwaysInvariant(c, ys, acts, |acts|);
      SuccessIsComplete(c, ys, acts, |acts|);
      if !y.sOut.Done? {
        var a := TurnIsPossible(c, y);
      }
    } else {
      RefusedRun(c, ys, acts);
    }
  }
}
