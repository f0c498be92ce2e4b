/**
 What an end does with a packet that does not take it forward, and how often. Echoes
 are ignored, the previous packet is answered again until the retries run out, anything
 else is asked for again, and a packet out of place ends the transfer on both sides.
 */
module Refusals {
  import opened Bytes
  import opened Codec
  import opened Negotiation
  import opened Attributes
  import opened Engine
  import opened Transfer

  // ---- One packet ----

  /** The state with another slot, and nothing else changed. */
  function WithSlot(k: KState, slot: nat, s: Slot): KState
    requires slot < |k.slots|
  {
    k.(slots := k.slots[slot := s])
  }

  lemma SlotAgain(slots: seq<Slot>, slot: nat, a: Slot, b: Slot, c: Slot)
    requires slot < |slots|
    ensures slots[slot := a][slot := b] == slots[slot := b]
    ensures slots[slot := a][slot := b][slot := c] == slots[slot := c]
  {
  }

  /** A receiver that hears a NAK or an acknowledgement hears itself. */
  lemma EchoIsIgnored(k: KState, slot: nat, rx: Rx, fill: Fill)
    requires slot < |k.slots| && Wellformed(k) && k.what.Receiving?
    requires (rx.Intact? && rx.p.typ in {N, Y}) || (rx.Damaged? && rx.typ in {N, Y})
    ensures Run(k, slot, rx, fill) == Res(WithSlot(k, slot, k.slots[slot].(len := 0)), [], Ok)
  {
    hide RightNumber;
    hide WrongNumber;
    SlotAgain(k.slots, slot, k.slots[slot].(len := rx.len), k.slots[slot].(len := 0), k.slots[slot].(len := 0));
  }

  /** An E packet ends the transfer at once and silently. */
  lemma ErrorEnds(k: KState, slot: nat, p: Packet, len: int, fill: Fill)
    requires slot < |k.slots| && Wellformed(k) && p.typ == E
    ensures Run(k, slot, Intact(p, len), fill) ==
            Res(WithSlot(k, slot, k.slots[slot].(len := len)), [], Failed(PeerError))
  {
    hide RightNumber;
    hide WrongNumber;
  }

  /** A packet the engine looks at the number of. */
  predicate Numbered(k: KState, p: Packet) {
    p.typ != E && (k.what.Receiving? ==> p.typ != N && p.typ != Y)
  }

  /** The previous packet again: the answer to it again, or after too many times an E packet and the end. */
  lemma PreviousIsAnsweredAgain(k: KState, slot: nat, p: Packet, len: int, fill: Fill)
    requires slot < |k.slots| && Wellformed(k) && Numbered(k, p) && k.opkt.Some?
    requires p.sq == Prev(k.r_seq) && p.sq != k.r_seq
    ensures var rtr := k.slots[slot].rtr;
            var res := Run(k, slot, Intact(p, len), fill);
            if rtr <= k.par.retry then res == Res(WithSlot(k, slot, Slot(0, rtr + 1)), [k.opkt.value], Ok)
            else
              && res.out == Failed(TooManyRetries) && |res.sent| == 1 && res.sent[0].typ == E
              && res.k.par == k.par.(bct := 1) && res.k.log == k.log && res.k.slots == k.slots[slot := Slot(0, rtr + 1)]
  {
    hide RightNumber;
    hide Ascii;
    var s := k.slots[slot];
    SlotAgain(k.slots, slot, s.(len := len), Slot(0, s.rtr), Slot(0, s.rtr + 1));
  }

  /** Any other number is refused: the receiver asks for the packet it wants, the sender repeats its own. */
  lemma StrangerIsRefused(k: KState, slot: nat, p: Packet, len: int, fill: Fill)
    requires slot < |k.slots| && Wellformed(k) && Numbered(k, p) && k.opkt.Some?
    requires p.sq != Prev(k.r_seq) && p.sq != k.r_seq
    ensures var res := Run(k, slot, Intact(p, len), fill);
            && res.sent == [if k.what.Receiving? then Packet(k.r_seq, N, []) else k.opkt.value]
            && res.k == k.(s_seq := res.k.s_seq, opkt := Some(res.sent[0]), slots := res.k.slots)
            && res.k.slots[slot].len == 0
  {
    hide RightNumber;
    hide Ascii;
  }

  /** Whatever a sender reads that is not the acknowledgement it waits for, it sends its packet again. */
  lemma SenderInsists(k: KState, slot: nat, rx: Rx, fill: Fill)
    requires slot < |k.slots| && Wellformed(k) && k.what.Sending? && k.opkt.Some?
    requires !rx.Intact? || (rx.p.typ != E && rx.p.sq == k.r_seq && rx.p.typ != Y)
    ensures var res := Run(k, slot, rx, fill);
            res.sent == [k.opkt.value] && res.out == Ok && res.k == k.(slots := res.k.slots)
  {
    hide Proceed;
    hide WrongNumber;
  }

  // ---- Many of them ----

  /** The state after `n` calls that all read the same. */
  function AfterReads(k: KState, slot: nat, rx: Rx, n: nat): (m: KState)
    requires slot < |k.slots| && k.what.Receiving?
    ensures slot < |m.slots| && m.what.Receiving?
  {
    if n == 0 then k
    else
      var m := AfterReads(k, slot, rx, n - 1);
      RunKeepsRole(m, slot, rx);
      Run(m, slot, rx, Fill([], [])).k
  }

  lemma RunKeepsRole(k: KState, slot: nat, rx: Rx)
    requires slot < |k.slots| && k.what.Receiving?
    ensures Wellformed(k)
    ensures var m := Run(k, slot, rx, Fill([], [])).k; slot < |m.slots| && m.what.Receiving?
  {
    hide Receive;
    hide Ascii;
    if rx.Intact? {
      ReceiveKeepsRole(k.(slots := k.slots[slot := Slot(rx.len, 0)]), rx.p);
      SlotAgain(k.slots, slot, k.slots[slot].(len := rx.len), Slot(rx.len, 0), Slot(rx.len, 0));
    }
  }

  lemma ReceiveKeepsRole(k: KState, p: Packet)
    ensures Receive(k, p).k.what == k.what && Receive(k, p).k.slots == k.slots
  {
    hide Ascii;
    hide Adopt;
    hide Announce;
    hide Decode;
    hide ReadAttrs;
  }

  /** A read a receiver answers with a NAK. */
  predicate AsksAgain(rx: Rx) {
    rx.Short? || (rx.Damaged? && rx.typ != N && rx.typ != Y)
  }

  /** It asks for the packet it wants; only a failure noticed behind the header does not count against it. */
  lemma OneNak(k: KState, slot: nat, rx: Rx)
    requires slot < |k.slots| && k.what.Receiving? && AsksAgain(rx)
    ensures var rtr := k.slots[slot].rtr;
            var res := Run(k, slot, rx, Fill([], []));
            && res.sent == [Packet(k.r_seq, N, [])] && res.k.slots[slot].rtr == rtr + 1 && |res.k.slots| == |k.slots|
            && res.k.par == k.par && res.k.r_seq == k.r_seq
            && res.out == if rtr > k.par.retry && !(rx.Damaged? && !rx.inHeader) then Failed(TooManyRetries) else Ok
  {
  }

  /**
   How patient a receiver is with a line that brings only noise: each read is answered by
   a NAK for the same packet and counted in its slot, and if what was read is short or has
   a bad header, exactly the reads from number retry + 2 on, counted from a fresh slot,
   are reported as a failure. Behind a good header the count is never looked at.
   */
  lemma {:induction false} PatienceWithNoise(k: KState, slot: nat, rx: Rx, n: nat)
    requires slot < |k.slots| && k.what.Receiving? && AsksAgain(rx)
    ensures var m := AfterReads(k, slot, rx, n);
            && m.slots[slot].rtr == k.slots[slot].rtr + n && m.par == k.par && m.r_seq == k.r_seq
            && var res := Run(m, slot, rx, Fill([], []));
               && res.sent == [Packet(k.r_seq, N, [])]
               && (res.out == Ok || res.out == Failed(TooManyRetries))
               && (res.out.Failed? <==>
                     k.slots[slot].rtr + n > k.par.retry && (rx.Short? || rx.inHeader))
  {
    hide Run;
    OneNak(AfterReads(k, slot, rx, n), slot, rx);
    if n > 0 {
      PatienceWithNoise(k, slot, rx, n - 1);
      OneNak(AfterReads(k, slot, rx, n - 1), slot, rx);
    }
  }

  /**
   How patient it is with a packet it has already accepted: the kept answer goes out again
   as long as the retries last, and then an E packet ends the transfer.
   */
  lemma {:induction false} PatienceWithRepetition(k: KState, slot: nat, p: Packet, len: int, n: nat)
    requires slot < |k.slots| && k.what.Receiving? && Numbered(k, p) && k.opkt.Some?
    requires p.sq == Prev(k.r_seq) && p.sq != k.r_seq && k.slots[slot] == Slot(0, 0) && n <= k.par.retry + 1
    ensures AfterReads(k, slot, Intact(p, len), n) == WithSlot(k, slot, Slot(0, n))
    ensures var res := Run(WithSlot(k, slot, Slot(0, n)), slot, Intact(p, len), Fill([], []));
            if n <= k.par.retry then res.out == Ok && res.sent == [k.opkt.value]
            else res.out == Failed(TooManyRetries) && |res.sent| == 1 && res.sent[0].typ == E
  {
    hide Run;
    var m := WithSlot(k, slot, Slot(0, n));
    assert Wellformed(m);
    PreviousIsAnsweredAgain(m, slot, p, len, Fill([], []));
    if n > 0 {
      PatienceWithRepetition(k, slot, p, len, n - 1);
      var before := WithSlot(k, slot, Slot(0, n - 1));
      assert Wellformed(before);
      PreviousIsAnsweredAgain(before, slot, p, len, Fill([], []));
      SlotAgain(k.slots, slot, Slot(0, n - 1), Slot(0, n), Slot(0, n));
    } else {
      assert k.slots[slot := Slot(0, 0)] == k.slots;
    }
  }

  // ---- Packets out of place ----

  /** The packets a receiver may be sent, by its state. */
  predicate Expects(st: State, typ: byte) {
    match st
    case R_WAIT => typ == S
    case R_FILE => typ == F || typ == B
    case R_ATTR => typ == A || typ == D || typ == Z
    case R_DATA => typ == D || typ == Z
    case _ => false
  }

  /** Exactly the others end the transfer, with an E packet to the other side, and leave what has been received. */
  lemma OnlyExpectedTypes(k: KState, p: Packet)
    ensures Receive(k, p).out == Failed(UnexpectedType) <==> !Expects(k.state, p.typ)
    ensures !Expects(k.state, p.typ) ==>
              var res := Receive(k, p);
              && |res.sent| == 1 && res.sent[0].typ == E && res.sent[0].sq == 0 && res.k.par == k.par.(bct := 1)
              && res.k == k.(s_seq := 0, opkt := Some(res.sent[0]), par := res.k.par)
  {
    hide Ascii;
    hide Adopt;
    hide Announce;
    hide Decode;
    hide ReadAttrs;
  }

  /** A file is closed as received at its Z packet unless that says it is incomplete; then it is dropped. */
  lemma IncompleteFileIsDropped(k: KState, p: Packet)
    requires (k.state == R_ATTR || k.state == R_DATA) && p.typ == Z
    ensures var res := Receive(k, p);
            && res.out == Ok && res.k.state == R_FILE && res.sent == [Packet(k.r_seq, Y, [])]
            && (res.k.log == k.log <==> p.data != [] && p.data[0] == D)
            && (res.k.log != k.log ==>
                  res.k.log == k.log + [Received(k.filename, if k.state == R_ATTR then [] else k.delivered, k.attrs)])
  {
    hide Ascii;
    var content := if k.state == R_ATTR then [] else k.delivered;
    assert |k.log + [Received(k.filename, content, k.attrs)]| == |k.log| + 1;
  }

  // ---- A file the receiver stops ----

  /**
   What becomes of a file the receiver stops with X, or with Z for the whole group. The
   sender says that the file is over in a Z packet that does not say it is incomplete, and
   so the receiver keeps what it has as if it were all: it lacks exactly what was pending.
   */
  lemma StoppedFileIsKept(c: Setup, y: Sys, slot: nat, stop: byte, len: int, fill: Fill)
    requires Inv(c, y) && y.s.state == S_DATA && y.sOut.Ok? && y.rOut.Ok? && Ahead(y) && slot < 4
    requires stop == X || stop == Z
    ensures y.s.next <= |c.files| && y.s.next > 0 && |y.s.slots| == 4
    ensures var res := Run(y.s, slot, Intact(Packet(y.cur.sq, Y, [stop]), len), fill);
            var f := c.files[y.s.next - 1];
            && res.out == Ok && res.sent == [Packet(Succ(y.cur.sq), Z, [])] && res.k.state == S_EOF
            && res.k.next == (if stop == X then y.s.next else |c.files|) && res.k.files == c.files
            && var taken := Receive(y.r, res.sent[0]);
               && taken.out == Ok && taken.k.state == R_FILE
               && taken.k.log == y.r.log + [Received(y.r.filename, y.r.delivered, y.r.attrs)]
               && y.r.delivered + y.s.pending == f.content
  {
    hide Inv;
    hide Run;
    hide Receive;
    StoppedState(c, y);
    SenderStops(y.s, slot, stop, len, fill);
    StoppedIsClosed(y.r, Packet(Succ(y.cur.sq), Z, []));
  }

  lemma SenderStops(k: KState, slot: nat, stop: byte, len: int, fill: Fill)
    requires k.what.Sending? && k.state == S_DATA && slot < |k.slots| && k.s_seq == k.r_seq && k.next <= |k.files|
    requires stop == X || stop == Z
    ensures Wellformed(k)
    ensures var res := Run(k, slot, Intact(Packet(k.r_seq, Y, [stop]), len), fill);
            && res.out == Ok && res.sent == [Packet(Succ(k.s_seq), Z, [])] && res.k.state == S_EOF
            && res.k.next == (if stop == X then k.next else |k.files|) && res.k.files == k.files
  {
    hide Proceed;
    hide WrongNumber;
  }

  lemma StoppedIsClosed(k: KState, p: Packet)
    requires k.state == R_DATA && p.typ == Z && p.data == []
    ensures var taken := Receive(k, p);
            && taken.out == Ok && taken.k.state == R_FILE
            && taken.k.log == k.log + [Received(k.filename, k.delivered, k.attrs)]
  {
    hide Ascii;
  }

  lemma StoppedState(c: Setup, y: Sys)
    requires Inv(c, y) && y.s.state == S_DATA && y.sOut.Ok? && y.rOut.Ok? && Ahead(y)
    ensures y.s.what.Sending? && y.s.files == c.files && |y.s.slots| == 4 && 0 < y.s.next <= |c.files|
    ensures y.s.s_seq == y.s.r_seq == y.cur.sq && y.r.what.Receiving? && y.r.state == R_DATA
    ensures y.r.delivered + y.s.pending == c.files[y.s.next - 1].content
  {
    hide Decode;
    hide Complete;
    hide NameArrived;
    hide AttrsArrived;
    hide ForwardLine;
    hide BackwardLine;
    hide Repeatable;
    hide SenderPar;
    hide ReceiverPar;
    hide Offer;
    hide Sendable;
    hide GoodSetup;
  }

  /** After that the next file follows, or the end when the group was stopped or no file is left. */
  lemma AfterTheStop(k: KState, p: Packet, fill: Fill)
    requires k.state == S_EOF && k.next <= |k.files|
    ensures var res := Proceed(k, p, fill);
            && |res.sent| == 1
            && if k.next < |k.files| then
                 res.sent[0].typ == F && res.k.next == k.next + 1 && res.k.pending == k.files[k.next].content
               else res.sent[0].typ == B
  {
  }

  // ---- A lost packet ----

  /**
   What a NAK is for. The packet the receiver waits for is lost; it reads noise and asks
   for it, the sender repeats it, and it is taken, whichever slots the three reads use.
   */
  lemma NakRepairsLoss(c: Setup, y: Sys, rx: Rx, at: nat, from: nat, len: int)
    requires Inv(c, y) && y.sOut.Ok? && y.rOut.Ok? && !Ahead(y) && y.fwd == y.back == [] && at < 4 && from < 4
    requires AsksAgain(rx) && |y.r.slots| == 4 && y.r.slots[at].rtr <= y.r.par.retry
    ensures Enabled(c, y, NoiseAtReceiver(at, rx))
    ensures var y1 := Step(c, y, NoiseAtReceiver(at, rx));
            && Enabled(c, y1, DeliverBackward(from, len, Fill([], [])))
            && var y2 := Step(c, y1, DeliverBackward(from, len, Fill([], [])));
               && Enabled(c, y2, DeliverForward(at, len))
               && var y3 := Step(c, y2, DeliverForward(at, len));
                  Ahead(y3) && y3.cur == y.cur && !y3.rOut.Failed? && y3.sOut.Ok?
  {
    NakGoesOut(c, y, rx, at);
    var y1 := Step(c, y, NoiseAtReceiver(at, rx));
    StepKeepsInvariant(c, y, NoiseAtReceiver(at, rx));
    NakIsAnswered(c, y1, from, len);
    var y2 := Step(c, y1, DeliverBackward(from, len, Fill([], [])));
    StepKeepsInvariant(c, y1, DeliverBackward(from, len, Fill([], [])));
    hide Inv;
    hide Run;
    hide LegalFill;
    hide SeenBy;
    PacketIsTaken(c, y2, at, len);
  }

  lemma NakGoesOut(c: Setup, y: Sys, rx: Rx, at: nat)
    requires Inv(c, y) && y.rOut.Ok? && y.back == [] && at < 4
    requires AsksAgain(rx) && |y.r.slots| == 4 && y.r.slots[at].rtr <= y.r.par.retry
    ensures Enabled(c, y, NoiseAtReceiver(at, rx))
    ensures var y1 := Step(c, y, NoiseAtReceiver(at, rx));
            && y1.back == [Packet(y.r.r_seq, N, [])] && y1.rOut == Ok && y1.r.r_seq == y.r.r_seq
            && y1 == y.(r := y1.r, back := y1.back)
  {
    hide Inv;
    hide Run;
    hide Prefix;
    InvariantMeansPrefix(c, y);
    Roles(c, y);
    OneNak(y.r, at, rx);
  }

  lemma NakIsAnswered(c: Setup, y: Sys, from: nat, len: int)
    requires Inv(c, y) && y.sOut.Ok? && y.fwd == [] && from < 4
    requires |y.back| == 1 && y.back[0].typ == N && y.back[0].sq == y.cur.sq
    ensures Enabled(c, y, DeliverBackward(from, len, Fill([], [])))
    ensures var y2 := Step(c, y, DeliverBackward(from, len, Fill([], [])));
            y2.fwd == [y.cur] && y2.cur == y.cur && y2.sOut == Ok && y2.r == y.r && y2.rOut == y.rOut
  {
    hide Inv;
    hide Run;
    hide Seen;
    hide Prefix;
    InvariantMeansPrefix(c, y);
    Roles(c, y);
    SenderWaits(c, y);
    var rx := Intact(SeenBy(y.s, y.back[0]), len);
    SenderInsists(y.s, from, rx, Fill([], []));
  }

  lemma SenderWaits(c: Setup, y: Sys)
    requires Inv(c, y) && y.sOut.Ok?
    ensures y.s.r_seq == y.cur.sq && y.s.opkt == Some(y.cur) && y.cur.typ != E
  {
    CurrentIsOrdinary(c, y);
    hide Progress;
    hide Shape;
    hide ForwardLine;
    hide BackwardLine;
    hide Repeatable;
  }

  lemma PacketIsTaken(c: Setup, y: Sys, at: nat, len: int)
    requires Inv(c, y) && y.sOut.Ok? && y.rOut.Ok? && !Ahead(y) && y.fwd == [y.cur] && at < 4
    ensures Enabled(c, y, DeliverForward(at, len))
    ensures var y3 := Step(c, y, DeliverForward(at, len));
            Ahead(y3) && y3.cur == y.cur && !y3.rOut.Failed? && y3.sOut == y.sOut
  {
    hide Inv;
    hide Run;
    hide Receive;
    hide Seen;
    hide Prefix;
    hide Accepts;
    InvariantMeansPrefix(c, y);
    Roles(c, y);
    CurrentIsSeen(c, y);
    SenderWaits(c, y);
    Heads(c, y);
    var slots, slots' := y.r.slots[at := Slot(len, 0)], y.r.slots[at := Slot(0, 0)];
    Accepting(c, y, slots, slots');
    ReceiveKeepsSlots(y.r.(slots := slots), y.cur);
    TakenMeansAhead(c, y, Receive(y.r.(slots := slots), y.cur), slots');
    CurrentTaken(c, y, at, len);
  }

  lemma TakenMeansAhead(c: Setup, y: Sys, res: Res, slots: seq<Slot>)
    requires Accepts(c, y, res, slots) && 0 <= y.cur.sq < 64
    ensures !res.out.Failed? && res.k.r_seq != y.cur.sq
  {
    Sequence(y.cur.sq);
    hide Progress;
    hide Shape;
    hide Acknowledges;
  }
}
