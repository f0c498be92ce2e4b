/**
 When a disturbed transfer can still be completed. The condition is exact: in any
 state of any run, for every way in which getpkt may cut the files, there is a way
 on to success if and only if neither end has stopped, the current packet can still
 be acknowledged, and the block checks of all packets to come will be accepted.
 */
module Recovery {
  import opened Bytes
  import opened Codec
  import opened SendCodec
  import opened Negotiation
  import opened Engine
  import opened Slots
  import opened Transfer
  import opened Wire
  import opened Impasse
  import opened Completion
  import opened Refusals
  import BlockCheck
  import Print = Packet

  // ---- What is still to be sent ----

  /** How getpkt cuts what it is given: the field for each name, and the next field of each file. */
  datatype Cutter = Cutter(name: nat -> seq<byte>, data: (nat, seq<byte>) -> Fill)

  ghost predicate Legal(c: Setup, g: Cutter) {
    && (forall n | 0 <= n < |c.files| :: NameField(Config(SenderPar(c)), c.files[n].name, g.name(n)))
    && (forall n, pending :: DataField(Code(c), pending, g.data(n, pending)))
  }

  /** The field for the next call. */
  function Chosen(g: Cutter, k: KState): Fill {
    if k.state == S_INIT || k.state == S_EOF then Fill(if k.next < |k.files| then g.name(k.next) else [], [])
    else if k.next > 0 then g.data(k.next - 1, k.pending)
    else Fill([], [])
  }

  function Rank(st: State): nat {
    match st
    case S_FILE => 2
    case S_ATTR => 1
    case S_DATA => 1
    case _ => 0
  }

  lemma Shorter(c: Setup, g: Cutter, n: nat, pending: seq<byte>)
    requires Legal(c, g)
    ensures g.data(n, pending).field != [] ==> |g.data(n, pending).rest| < |pending|
  {
    hide Decode;
    var fill := g.data(n, pending);
    assert DataField(Code(c), pending, fill);
    EmptyField(Code(c), fill.field);
  }

  ghost function NextCut(c: Setup, g: Cutter, n: nat, pending: seq<byte>): (fill: Fill)
    requires Legal(c, g)
    ensures fill.field != [] ==> |fill.rest| < |pending|
  {
    Shorter(c, g, n, pending);
    g.data(n, pending)
  }

  /** The packets a sender issues after the one it sent with number `sq` in state `st`. */
  ghost function Rest(c: Setup, g: Cutter, sq: int, st: State, next: nat, pending: seq<byte>): seq<Packet>
    requires Legal(c, g) && next <= |c.files|
    decreases |c.files| - next, Rank(st), |pending|
  {
    var sq := Succ(sq);
    if st == S_INIT || st == S_EOF then
      if next < |c.files| then
        [Packet(sq, F, g.name(next))] + Rest(c, g, sq, S_FILE, next + 1, c.files[next].content)
      else [Packet(sq, B, [])]
    else if next == 0 then []
    else if st == S_FILE && Attributed(c) then
      [Packet(sq, A, AttrField(c.files[next - 1]))] + Rest(c, g, sq, S_ATTR, next, pending)
    else if st == S_FILE || st == S_ATTR || st == S_DATA then
      var fill := NextCut(c, g, next - 1, pending);
      if fill.field == [] then [Packet(sq, Z, [])] + Rest(c, g, sq, S_EOF, next, pending)
      else [Packet(sq, D, fill.field)] + Rest(c, g, sq, S_DATA, next, fill.rest)
    else []
  }

  /** The packets the sender has still to issue. */
  ghost function ToIssue(c: Setup, g: Cutter, y: Sys): seq<Packet>
    requires Legal(c, g) && y.s.next <= |c.files|
  {
    Rest(c, g, y.cur.sq, y.s.state, y.s.next, y.s.pending)
  }

  ghost predicate AllExchangeable(c: Setup, ps: seq<Packet>) {
    forall i :: 0 <= i < |ps| ==> Exchangeable(c, ps[i])
  }

  /** The transfer is over, or nothing blocks it and the checks of all packets to come will be accepted. */
  ghost predicate Recoverable(c: Setup, g: Cutter, y: Sys)
    requires Legal(c, g) && y.s.next <= |c.files|
  {
    y.sOut.Done? || (!Blocked(c, y) && AllExchangeable(c, ToIssue(c, g, y)))
  }

  // ---- What may still happen ----

  /** A step in which the sender cuts its fields as `g` says. */
  predicate Allowed(c: Setup, g: Cutter, y: Sys, a: Action) {
    Feasible(c, y, a) && (a.DeliverBackward? ==> a.fill == Chosen(g, y.s))
  }

  predicate Possible(c: Setup, g: Cutter, y: Sys, acts: seq<Action>)
    decreases |acts|
  {
    acts == [] || (Allowed(c, g, y, acts[0]) && Possible(c, g, Step(c, y, acts[0]), acts[1..]))
  }

  function Final(c: Setup, g: Cutter, y: Sys, acts: seq<Action>): Sys
    requires Possible(c, g, y, acts)
    decreases |acts|
  {
    if acts == [] then y else Final(c, g, Step(c, y, acts[0]), acts[1..])
  }

  /** There is a way on after which the sender reports success. */
  ghost predicate CanFinish(c: Setup, g: Cutter, y: Sys) {
    exists acts :: Possible(c, g, y, acts) && Final(c, g, y, acts).sOut.Done?
  }

  lemma OneStepBefore(c: Setup, g: Cutter, y: Sys, a: Action)
    requires Allowed(c, g, y, a) && CanFinish(c, g, Step(c, y, a))
    ensures CanFinish(c, g, y)
  {
    hide Enabled;
    hide Readable;
    hide Step;
    hide Chosen;
    var acts :| Possible(c, g, Step(c, y, a), acts) && Final(c, g, Step(c, y, a), acts).sOut.Done?;
    var all := [a] + acts;
    assert all[1..] == acts;
    assert Possible(c, g, y, all) && Final(c, g, y, all).sOut.Done?;
  }

  lemma AlreadyFinished(c: Setup, g: Cutter, y: Sys)
    requires y.sOut.Done?
    ensures CanFinish(c, g, y)
  {
    assert Possible(c, g, y, []) && Final(c, g, y, []) == y;
  }

  // ---- The next packet is the first of those still to be issued ----

  lemma ChosenIsLegal(c: Setup, g: Cutter, y: Sys, p: Packet, len: int)
    requires Inv(c, y) && y.sOut.Ok? && Legal(c, g) && Acknowledges(c, y.cur, p)
    ensures LegalFill(y.s, Intact(p, len), Chosen(g, y.s))
  {
    hide Inv;
    hide Acknowledges;
    hide DataField;
    hide NameField;
    hide Adopt;
    hide Has;
    hide EncodeQuoting;
    hide Code;
    hide Config;
    hide SenderPar;
    SenderCode(c, y, p);
    SenderAdopts(c, y, p);
    PendingFile(c, y);
  }

  lemma SenderCode(c: Setup, y: Sys, p: Packet)
    requires Inv(c, y) && y.sOut.Ok? && Acknowledges(c, y.cur, p)
    ensures EncodeQuoting(Adopted(y.s, p)) == Code(c)
    ensures !Cancelled(y.s, p)
    ensures y.s.state in {S_INIT, S_FILE, S_ATTR, S_DATA, S_EOF, S_EOT}
    ensures y.s.what.Sending? && y.s.files == c.files && y.s.r_seq == y.cur.sq
    ensures Wellformed(y.s) && (y.s.state == S_FILE ==> 1 <= y.s.next <= |c.files|)
  {
    hide Adopt;
    hide Announce;
    hide EncodeQuoting;
    hide Code;
    hide Has;
    hide Config;
    hide Decode;
    hide Complete;
    hide ForwardLine;
    hide BackwardLine;
    hide Repeatable;
    hide NameArrived;
    hide AttrsArrived;
    hide AttrField;
    hide Offer;
    hide Requested;
    hide ReceiverPar;
    hide SenderPar;
    Negotiated(c);
  }

  lemma PendingFile(c: Setup, y: Sys)
    requires Inv(c, y)
    ensures y.s.next <= |c.files| && y.s.files == c.files
    ensures y.s.state in {S_FILE, S_ATTR, S_DATA} ==> y.s.next > 0
  {
    hide Decode;
    hide Complete;
    hide ForwardLine;
    hide BackwardLine;
    hide Repeatable;
    hide NameArrived;
    hide AttrsArrived;
    hide AttrField;
    hide SenderPar;
    hide ReceiverPar;
  }

  /** One call of Proceed, told by what is still to be issued. */
  lemma ProceedIssues(c: Setup, g: Cutter, k: KState, p: Packet)
    requires Legal(c, g) && k.what.Sending? && k.files == c.files && k.next <= |c.files| && Wellformed(k)
    requires k.state in {S_INIT, S_FILE, S_ATTR, S_DATA, S_EOF}
    requires k.state in {S_FILE, S_ATTR, S_DATA} ==> k.next > 0
    requires k.state == S_FILE ==> (Has(k.par.capas, CAP_AT) <==> Attributed(c))
    ensures var res := Proceed(k, p, Chosen(g, k));
            var rest := Rest(c, g, k.s_seq, k.state, k.next, k.pending);
            && res.k.next <= |c.files| && |res.sent| == 1 && res.sent[0].sq == Succ(k.s_seq)
            && rest == res.sent + Rest(c, g, Succ(k.s_seq), res.k.state, res.k.next, res.k.pending)
  {
    hide Legal;
    hide Adopt;
    hide Has;
    hide AttrField;
  }

  /** The sender's call on the acknowledgement it waits for. */
  lemma AdvanceIssues(c: Setup, g: Cutter, y: Sys, slot: nat, p: Packet, len: int)
    requires Inv(c, y) && y.sOut.Ok? && Legal(c, g) && slot < 4 && y.s.state != S_EOT
    requires p.typ == Y && p.sq == y.cur.sq && Acknowledges(c, y.cur, p)
    requires Wellformed(y.s) && y.s.next <= |c.files|
    ensures |y.s.slots| == 4
    ensures var res := Run(y.s, slot, Intact(p, len), Chosen(g, y.s));
            && res.k.next <= |c.files| && |res.sent| == 1
            && ToIssue(c, g, y) == res.sent + Rest(c, g, res.sent[0].sq, res.k.state, res.k.next, res.k.pending)
  {
    hide Inv;
    hide Run;
    hide Proceed;
    hide Acknowledges;
    hide Legal;
    hide Rest;
    hide Has;
    hide Code;
    hide EncodeQuoting;
    hide Adopt;
    hide Cancelled;
    Roles(c, y);
    SenderCode(c, y, p);
    PendingFile(c, y);
    CurrentNumber(c, y);
    SenderKnowsAttributes(c, y);
    var freed := y.s.(slots := y.s.slots[slot := Slot(0, 0)]);
    AckTaken(c, y, slot, p, len, Chosen(g, y.s));
    assert Chosen(g, freed) == Chosen(g, y.s);
    ProceedIssues(c, g, freed, p);
  }

  lemma SenderKnowsAttributes(c: Setup, y: Sys)
    requires Inv(c, y) && y.sOut.Ok?
    ensures y.s.state == S_FILE ==> (Has(y.s.par.capas, CAP_AT) <==> Attributed(c))
    ensures y.s.s_seq == y.cur.sq
  {
    hide Progress;
    hide ForwardLine;
    hide BackwardLine;
    hide Repeatable;
    hide Has;
    hide SenderPar;
    Negotiated(c);
  }

  // ---- From every recoverable state there is a way on ----

  /** Taking turns, with acceptable checks on all packets to come. */
  ghost predicate ClearTurn(c: Setup, g: Cutter, y: Sys)
    requires Legal(c, g)
  {
    && Turn(y) && y.s.next <= |c.files|
    && (!y.sOut.Done? ==>
          && (if Ahead(y) then AckFits(c, y.cur, y.back[0]) else Exchangeable(c, y.cur))
          && AllExchangeable(c, ToIssue(c, g, y)))
  }

  lemma PacketAllowed(c: Setup, g: Cutter, y: Sys)
    requires Inv(c, y) && Turn(y) && !y.sOut.Done? && !Ahead(y) && Exchangeable(c, y.cur)
    ensures Allowed(c, g, y, DeliverForward(FirstFree(y.r.slots, 0), 0))
  {
    hide Inv;
    hide CurFits;
    hide AckFits;
    hide Echo;
    hide Wellformed;
    hide FirstFree;
    hide Feasible;
    hide Readable;
    hide Deliveries;
    ChecksAgree(c, y);
    BothWellformed(c, y);
    CanReadForward(c, y, FirstFree(y.r.slots, 0), 0);
  }

  lemma AckStaysClear(c: Setup, g: Cutter, y: Sys, res: Res)
    requires Legal(c, g) && ClearTurn(c, g, y) && !y.sOut.Done? && !Ahead(y)
    requires res.sent == [Packet(y.cur.sq, Y, Echo(c, y.cur))] && res.k.r_seq != y.cur.sq
    requires Turn(AfterReceiver(y.(fwd := y.fwd[1..]), res))
    ensures ClearTurn(c, g, AfterReceiver(y.(fwd := y.fwd[1..]), res))
  {
    hide Legal;
    hide Turn;
    hide CurFits;
    hide AckFits;
    hide Echo;
    hide AllExchangeable;
    hide Rest;
    assert y.back == [] by {
      assert Turn(y);
      EmptyBack(y);
    }
  }

  lemma EmptyBack(y: Sys)
    requires Turn(y) && !y.sOut.Done? && !Ahead(y)
    ensures y.back == []
  {
    hide Supplied;
  }

  lemma ForwardClear(c: Setup, g: Cutter, y: Sys)
    requires Inv(c, y) && Legal(c, g) && ClearTurn(c, g, y) && !y.sOut.Done? && !Ahead(y)
    ensures var a := DeliverForward(FirstFree(y.r.slots, 0), 0);
            Allowed(c, g, y, a) && ClearTurn(c, g, Step(c, y, a)) && Deliveries(Step(c, y, a)) < Deliveries(y)
  {
    var slot := FirstFree(y.r.slots, 0);
    PacketAllowed(c, g, y);
    CurrentIsSeen(c, y);
    AcceptedRun(c, y, slot, 0);
    CurrentInRange(c, y);
    hide Inv;
    hide Legal;
    hide Run;
    hide Echo;
    hide CurFits;
    hide AckFits;
    hide Readable;
    hide Supplied;
    hide Deliveries;
    hide FirstFree;
    hide AllExchangeable;
    hide Rest;
    Sequence(y.cur.sq);
    ForwardTurn(c, y, slot, 0);
    AckStaysClear(c, g, y, Run(y.r, slot, Intact(y.cur, 0), Fill([], [])));
  }

  lemma AnswerAllowed(c: Setup, g: Cutter, y: Sys)
    requires Inv(c, y) && Legal(c, g) && Turn(y) && !y.sOut.Done? && Ahead(y)
    requires AckFits(c, y.cur, y.back[0])
    ensures Allowed(c, g, y, DeliverBackward(FirstFree(y.s.slots, 0), 0, Chosen(g, y.s)))
  {
    hide Inv;
    hide Legal;
    hide CurFits;
    hide AckFits;
    hide LegalFill;
    hide Wellformed;
    hide FirstFree;
    hide Feasible;
    hide Chosen;
    hide Readable;
    hide Acknowledges;
    hide Deliveries;
    ChecksAgree(c, y);
    BothWellformed(c, y);
    AnswerInTurn(c, y);
    ChosenIsLegal(c, g, y, SeenBy(y.s, y.back[0]), 0);
    CanReadBackward(c, y, FirstFree(y.s.slots, 0), 0, Chosen(g, y.s));
  }

  lemma NextStaysClear(c: Setup, g: Cutter, y: Sys, y': Sys, sent: seq<Packet>)
    requires Legal(c, g) && ClearTurn(c, g, y) && !y.sOut.Done?
    requires |sent| == 1 && y'.cur == sent[0] && y'.s.next <= |c.files|
    requires ToIssue(c, g, y) == sent + ToIssue(c, g, y')
    requires Turn(y') && !y'.sOut.Done? && !Ahead(y')
    ensures ClearTurn(c, g, y')
  {
    hide Legal;
    hide Turn;
    hide Exchangeable;
    hide Rest;
    hide CurFits;
    hide AckFits;
    assert Exchangeable(c, ToIssue(c, g, y)[0]);
    assert forall i :: 0 <= i < |ToIssue(c, g, y')| ==> ToIssue(c, g, y')[i] == ToIssue(c, g, y)[i + 1];
  }

  lemma BackwardClear(c: Setup, g: Cutter, y: Sys)
    requires Inv(c, y) && Legal(c, g) && ClearTurn(c, g, y) && !y.sOut.Done? && Ahead(y)
    ensures var a := DeliverBackward(FirstFree(y.s.slots, 0), 0, Chosen(g, y.s));
            Allowed(c, g, y, a) && ClearTurn(c, g, Step(c, y, a)) && Deliveries(Step(c, y, a)) < Deliveries(y)
  {
    var slot, fill := FirstFree(y.s.slots, 0), Chosen(g, y.s);
    AnswerAllowed(c, g, y);
    AnswerInTurn(c, y);
    Ordinary(c, y);
    hide Inv;
    hide Legal;
    hide Run;
    hide CurFits;
    hide AckFits;
    hide Exchangeable;
    hide Seen;
    hide Readable;
    hide LegalFill;
    hide Wellformed;
    hide Supplied;
    hide Deliveries;
    hide FirstFree;
    hide Chosen;
    hide AllExchangeable;
    hide Rest;
    hide Acknowledges;
    BackwardTurn(c, y, slot, 0, fill);
    var y' := Step(c, y, DeliverBackward(slot, 0, fill));
    if y.s.state == S_EOT {
      SenderEnds(c, y, slot, 0, fill);
    } else {
      var p := SeenBy(y.s, y.back[0]);
      AdvanceIssues(c, g, y, slot, p, 0);
      SenderProceeds(c, y, slot, 0, fill);
      NextInTurn(y, y');
      NextStaysClear(c, g, y, y', Run(y.s, slot, Intact(p, 0), fill).sent);
    }
  }

  /** After a new packet the receiver has not accepted it yet. */
  lemma NextInTurn(y: Sys, y': Sys)
    requires Turn(y') && !y'.sOut.Done? && y'.fwd != []
    ensures !Ahead(y')
  {
    hide Supplied;
  }

  lemma {:induction false} ClearTurnCanFinish(c: Setup, g: Cutter, y: Sys)
    requires Inv(c, y) && Legal(c, g) && ClearTurn(c, g, y)
    ensures CanFinish(c, g, y)
    decreases Deliveries(y)
  {
    hide Inv;
    hide CanFinish;
    hide Step;
    hide FirstFree;
    hide Legal;
    hide CurFits;
    hide AckFits;
    hide AllExchangeable;
    hide Rest;
    hide Deliveries;
    hide Enabled;
    if y.sOut.Done? {
      AlreadyFinished(c, g, y);
    } else {
      var a;
      if Ahead(y) {
        a := DeliverBackward(FirstFree(y.s.slots, 0), 0, Chosen(g, y.s));
        BackwardClear(c, g, y);
      } else {
        a := DeliverForward(FirstFree(y.r.slots, 0), 0);
        ForwardClear(c, g, y);
      }
      StepKeepsInvariant(c, y, a);
      ClearTurnCanFinish(c, g, Step(c, y, a));
      OneStepBefore(c, g, y, a);
    }
  }

  lemma {:induction false} LoseAllForward(c: Setup, g: Cutter, y: Sys)
    requires CanFinish(c, g, y.(fwd := []))
    ensures CanFinish(c, g, y)
    decreases |y.fwd|
  {
    hide CanFinish;
    if y.fwd == [] {
      assert y == y.(fwd := []);
    } else {
      var y' := y.(fwd := y.fwd[1..]);
      assert y' == Step(c, y, LoseForward(0)) && y'.(fwd := []) == y.(fwd := []);
      LoseAllForward(c, g, y');
      OneStepBefore(c, g, y, LoseForward(0));
    }
  }

  lemma {:induction false} LoseAllBackward(c: Setup, g: Cutter, y: Sys)
    requires CanFinish(c, g, y.(back := []))
    ensures CanFinish(c, g, y)
    decreases |y.back|
  {
    hide CanFinish;
    if y.back == [] {
      assert y == y.(back := []);
    } else {
      var y' := y.(back := y.back[1..]);
      assert y' == Step(c, y, LoseBackward(0)) && y'.(back := []) == y.(back := []);
      LoseAllBackward(c, g, y');
      OneStepBefore(c, g, y, LoseBackward(0));
    }
  }

  lemma {:induction false} LoseAllBut(c: Setup, g: Cutter, y: Sys, i: nat)
    requires i < |y.back| && CanFinish(c, g, y.(back := [y.back[i]]))
    ensures CanFinish(c, g, y)
    decreases |y.back|
  {
    hide CanFinish;
    if |y.back| == 1 {
      assert y == y.(back := [y.back[i]]);
    } else {
      var lost := if i == 0 then 1 else 0;
      var y' := y.(back := Drop(y.back, lost));
      assert y' == Step(c, y, LoseBackward(lost));
      var i' := if i == 0 then 0 else i - 1;
      assert y'.back[i'] == y.back[i] && y'.(back := [y'.back[i']]) == y.(back := [y.back[i]]);
      LoseAllBut(c, g, y', i');
      OneStepBefore(c, g, y, LoseBackward(lost));
    }
  }

  /** Emptying a line, or leaving one packet on it, keeps the invariant. */
  lemma Cleared(c: Setup, y: Sys, back: seq<Packet>)
    requires Inv(c, y) && |back| <= 1 && (back != [] ==> back[0] in y.back)
    ensures Inv(c, y.(fwd := [], back := back))
  {
    hide Progress;
    hide SenderPar;
    hide ReceiverPar;
    hide Offer;
    hide Requested;
    hide Acknowledges;
    var y' := y.(fwd := [], back := back);
    SameState(c, y, y');
    assert Shape(c, y');
    hide Shape;
  }

  /** A sender that reads nothing sends its current packet again. */
  lemma SenderAsksAgain(c: Setup, y: Sys, slot: nat)
    requires Inv(c, y) && y.sOut.Ok? && slot < 4
    ensures |y.s.slots| == 4 && Wellformed(y.s)
    ensures Run(y.s, slot, Short(0), Fill([], [])) ==
            Res(y.s.(slots := y.s.slots[slot := y.s.slots[slot].(len := 0)]), [y.cur], Ok)
  {
    hide Progress;
    hide ForwardLine;
    hide BackwardLine;
    hide Repeatable;
    hide Wellformed;
    InvariantMeansPrefix(c, y);
    Roles(c, y);
  }

  /** Reading the previous packet again, with retries left. */
  lemma RepetitionRun(k: KState, slot: nat, p: Packet)
    requires k.what.Receiving? && slot < |k.slots| && Wellformed(k) && !Exhausted(k, slot) && k.opkt.Some?
    requires p.typ != N && p.typ != Y && p.typ != E && p.sq == Prev(k.r_seq) && p.sq != k.r_seq
    ensures Run(k, slot, Intact(p, 0), Fill([], [])) ==
            Res(k.(slots := k.slots[slot := Slot(0, k.slots[slot].rtr + 1)]), [k.opkt.value], Ok)
  {
    hide RightNumber;
    hide Ascii;
    var sl := k.slots;
    var rtr := sl[slot].rtr;
    assert sl[slot := Slot(0, rtr)][slot := Slot(0, rtr)][slot := Slot(0, rtr + 1)] == sl[slot := Slot(0, rtr + 1)];
  }

  /** A receiver that kept its acknowledgement repeats it when the packet comes again, and its slot is free again. */
  lemma AckRepeated(c: Setup, y: Sys, slot: nat)
    requires Inv(c, y) && Ahead(y) && y.rOut.Ok? && WouldRepeat(c, y.cur, y.r) && slot == FirstFree(y.r.slots, 0)
    requires Wellformed(y.r)
    ensures slot < |y.r.slots| == 4 && y.r.opkt.value.sq == y.cur.sq
    ensures Run(y.r, slot, Intact(y.cur, 0), Fill([], [])) ==
            Res(y.r.(slots := y.r.slots[slot := Slot(0, y.r.slots[slot].rtr + 1)]), [y.r.opkt.value], Ok)
  {
    hide Inv;
    hide Run;
    hide FirstFree;
    hide Wellformed;
    hide CurFits;
    hide AckFits;
    Roles(c, y);
    CurrentIsOrdinary(c, y);
    KeptNumber(c, y);
    AheadByOne(c, y);
    CurrentInRange(c, y);
    Sequence(y.cur.sq);
    RepetitionRun(y.r, slot, y.cur);
  }

  lemma KeptNumber(c: Setup, y: Sys)
    requires Inv(c, y) && Ahead(y) && y.r.opkt.Some? && y.r.opkt.value.typ == Y
    ensures y.r.opkt.value.sq == y.cur.sq
  {
    hide Progress;
    hide Shape;
    hide ForwardLine;
    hide BackwardLine;
    hide Acknowledges;
    Sequence(y.cur.sq);
  }

  /** The state after the sender has sent its packet again. */
  predicate SentAgain(y: Sys, y': Sys) {
    && y'.fwd == [y.cur] && y'.back == [] && y'.cur == y.cur && y'.r == y.r && y'.rOut == y.rOut && y'.sOut == Ok
    && y'.s == y.s.(slots := y'.s.slots) && Supplied(y')
  }

  lemma SendingAgain(y: Sys, slot: nat)
    requires y.fwd == y.back == [] && y.sOut.Ok? && Supplied(y) && y.cur.typ != E
    requires slot < |y.s.slots| && slot == FirstFree(y.s.slots, 0)
    ensures SentAgain(y, AfterSender(y, Res(y.s.(slots := y.s.slots[slot := y.s.slots[slot].(len := 0)]), [y.cur], Ok)))
  {
    FirstFreeAgain(y.s.slots, slot, y.s.slots[slot].(len := 0), 0);
  }

  /** Both lines empty: the sender reads nothing, and sends its packet again. */
  lemma AskedAgain(c: Setup, g: Cutter, y: Sys)
    requires Inv(c, y) && y.fwd == y.back == [] && y.sOut.Ok? && Supplied(y)
    ensures var a := NoiseAtSender(FirstFree(y.s.slots, 0), Short(0));
            Allowed(c, g, y, a) && SentAgain(y, Step(c, y, a))
  {
    hide Inv;
    hide Run;
    hide SentAgain;
    hide FirstFree;
    hide Wellformed;
    var slot := FirstFree(y.s.slots, 0);
    BothWellformed(c, y);
    CanHearNoise(c, y, slot, Short(0));
    CurrentIsOrdinary(c, y);
    SenderAsksAgain(c, y, slot);
    SendingAgain(y, slot);
  }

  lemma QuietUnaccepted(c: Setup, g: Cutter, y: Sys)
    requires Inv(c, y) && Legal(c, g) && y.fwd == [y.cur] && y.back == []
    requires y.sOut.Ok? && !y.rOut.Failed? && Supplied(y)
    requires y.s.next <= |c.files| && AllExchangeable(c, ToIssue(c, g, y))
    requires !Ahead(y) && Exchangeable(c, y.cur)
    ensures CanFinish(c, g, y)
  {
    hide Inv;
    hide Legal;
    hide CanFinish;
    hide Rest;
    hide AllExchangeable;
    hide CurFits;
    hide AckFits;
    hide Echo;
    Roles(c, y);
    Ordinary(c, y);
    ClearTurnCanFinish(c, g, y);
  }

  lemma RepeatAllowed(c: Setup, g: Cutter, y: Sys)
    requires Inv(c, y) && y.fwd == [y.cur] && y.sOut.Ok? && y.rOut.Ok? && Ahead(y) && WouldRepeat(c, y.cur, y.r)
    ensures Allowed(c, g, y, DeliverForward(FirstFree(y.r.slots, 0), 0))
  {
    hide Inv;
    hide CurFits;
    hide AckFits;
    hide Wellformed;
    hide FirstFree;
    hide Feasible;
    hide Readable;
    ChecksAgree(c, y);
    BothWellformed(c, y);
    CanReadForward(c, y, FirstFree(y.r.slots, 0), 0);
  }

  /** After the repetition the acknowledgement is under way. */
  lemma AckUnderwayAgain(c: Setup, y: Sys, slot: nat, rtr: nat)
    requires y.fwd == [y.cur] && y.back == [] && y.sOut.Ok? && y.rOut.Ok? && Ahead(y) && Supplied(y)
    requires y.s.next <= |y.s.files| && slot < |y.r.slots| && slot == FirstFree(y.r.slots, 0)
    requires y.r.opkt.Some? && y.r.opkt.value.typ == Y && y.r.opkt.value.sq == y.cur.sq
    ensures var res := Res(y.r.(slots := y.r.slots[slot := Slot(0, rtr)]), [y.r.opkt.value], Ok);
            var y' := AfterReceiver(y.(fwd := y.fwd[1..]), res);
            Turn(y') && Ahead(y') && y'.back == [y.r.opkt.value] && y'.s == y.s && y'.cur == y.cur && y'.sOut.Ok?
  {
    hide FirstFree;
    FirstFreeAgain(y.r.slots, slot, Slot(0, rtr), 0);
  }

  lemma QuietUnacknowledged(c: Setup, g: Cutter, y: Sys)
    requires Inv(c, y) && Legal(c, g) && y.fwd == [y.cur] && y.back == [] && y.sOut.Ok? && y.rOut.Ok? && Supplied(y)
    requires y.s.next <= |c.files| && AllExchangeable(c, ToIssue(c, g, y))
    requires Ahead(y) && WouldRepeat(c, y.cur, y.r)
    ensures CanFinish(c, g, y)
  {
    hide Inv;
    hide Legal;
    hide Run;
    hide Turn;
    hide CanFinish;
    hide Rest;
    hide AllExchangeable;
    hide CurFits;
    hide AckFits;
    hide FirstFree;
    hide Supplied;
    hide Readable;
    hide Wellformed;
    var a := DeliverForward(FirstFree(y.r.slots, 0), 0);
    BothWellformed(c, y);
    CurrentIsSeen(c, y);
    RepeatAllowed(c, g, y);
    AckRepeated(c, y, a.slot);
    Ordinary(c, y);
    AckUnderwayAgain(c, y, a.slot, y.r.slots[a.slot].rtr + 1);
    StepKeepsInvariant(c, y, a);
    ClearTurnCanFinish(c, g, Step(c, y, a));
    OneStepBefore(c, g, y, a);
  }

  /** With nothing under way, the sender asks again, if need be the receiver repeats itself, and they take turns. */
  lemma QuietCanFinish(c: Setup, g: Cutter, y: Sys)
    requires Inv(c, y) && Legal(c, g) && y.fwd == y.back == [] && y.sOut.Ok? && !y.rOut.Failed? && Supplied(y)
    requires y.s.next <= |c.files| && AllExchangeable(c, ToIssue(c, g, y))
    requires if Ahead(y) then y.rOut.Ok? && WouldRepeat(c, y.cur, y.r) else Exchangeable(c, y.cur)
    ensures CanFinish(c, g, y)
  {
    var a := NoiseAtSender(FirstFree(y.s.slots, 0), Short(0));
    AskedAgain(c, g, y);
    StepKeepsInvariant(c, y, a);
    hide Inv;
    hide Legal;
    hide Step;
    hide Feasible;
    hide CanFinish;
    hide Rest;
    hide ToIssue;
    hide AllExchangeable;
    hide Exchangeable;
    hide WouldRepeat;
    hide Supplied;
    var y' := Step(c, y, a);
    if Ahead(y) {
      QuietUnacknowledged(c, g, y');
    } else {
      QuietUnaccepted(c, g, y');
    }
    OneStepBefore(c, g, y, a);
  }

  lemma AckIsATurn(c: Setup, g: Cutter, y: Sys, ack: Packet)
    requires Legal(c, g) && y.sOut.Ok? && !y.rOut.Failed? && Supplied(y) && Ahead(y)
    requires y.s.next <= |y.s.files| && y.s.next <= |c.files| && AllExchangeable(c, ToIssue(c, g, y))
    requires ack.typ == Y && ack.sq == y.cur.sq && AckFits(c, y.cur, ack)
    ensures ClearTurn(c, g, y.(fwd := [], back := [ack]))
  {
    hide Legal;
    hide Rest;
    hide AllExchangeable;
    hide CurFits;
    hide AckFits;
    hide FirstFree;
    hide Exchangeable;
  }

  lemma AckCanFinish(c: Setup, g: Cutter, y: Sys, i: nat)
    requires Inv(c, y) && Legal(c, g) && y.sOut.Ok? && !y.rOut.Failed? && Supplied(y) && Ahead(y)
    requires y.s.next <= |c.files| && AllExchangeable(c, ToIssue(c, g, y))
    requires i < |y.back| && y.back[i].typ == Y && y.back[i].sq == y.cur.sq && AckFits(c, y.cur, y.back[i])
    ensures CanFinish(c, g, y.(fwd := [], back := [y.back[i]]))
  {
    hide Inv;
    hide Legal;
    hide CanFinish;
    hide ClearTurn;
    hide Rest;
    hide AllExchangeable;
    hide CurFits;
    hide AckFits;
    hide Supplied;
    Cleared(c, y, [y.back[i]]);
    Ordinary(c, y);
    AckIsATurn(c, g, y, y.back[i]);
    ClearTurnCanFinish(c, g, y.(fwd := [], back := [y.back[i]]));
  }

  lemma RecoverableCanFinish(c: Setup, g: Cutter, y: Sys)
    requires Inv(c, y) && Legal(c, g) && y.s.next <= |c.files| && Recoverable(c, g, y)
    ensures CanFinish(c, g, y)
  {
    hide Legal;
    hide CanFinish;
    hide Rest;
    hide AllExchangeable;
    hide CurFits;
    hide AckFits;
    hide Exchangeable;
    hide WouldRepeat;
    hide FirstFree;
    hide Inv;
    if y.sOut.Done? {
      AlreadyFinished(c, g, y);
    } else if Ahead(y) && AckUnderway(c, y) {
      var i: nat :| i < |y.back| && y.back[i].typ == Y && y.back[i].sq == y.cur.sq
                    && AckFits(c, y.cur, y.back[i]);
      AckCanFinish(c, g, y, i);
      var y1 := y.(fwd := []);
      assert y1.(back := [y1.back[i]]) == y.(fwd := [], back := [y.back[i]]);
      LoseAllBut(c, g, y1, i);
      LoseAllForward(c, g, y);
    } else {
      Cleared(c, y, []);
      Roles(c, y);
      QuietCanFinish(c, g, y.(fwd := [], back := []));
      var y1 := y.(fwd := []);
      assert y1.(back := []) == y.(fwd := [], back := []);
      LoseAllBackward(c, g, y1);
      LoseAllForward(c, g, y);
    }
  }

  // ---- From all others there is none ----

  /** The acknowledgement the sender waits for. */
  predicate TheAck(y: Sys, a: Action) {
    a.DeliverBackward? && y.back != [] && y.back[0].typ == Y && y.back[0].sq == y.s.r_seq
  }

  /** How far the sender has got is the same. */
  predicate Unmoved(y: Sys, y': Sys) {
    && y'.cur == y.cur && !y'.sOut.Done?
    && y'.s == y.s.(s_seq := y'.s.s_seq, r_seq := y'.s.r_seq, opkt := y'.s.opkt, par := y'.s.par, slots := y'.s.slots)
  }

  lemma StayingIsUnmoved(y: Sys, y': Sys, res: Res)
    requires y'.s == y.s && y'.cur == y.cur && SenderStays(y', res) && y.cur.typ != E
    ensures Unmoved(y, AfterSender(y', res))
  {
  }

  lemma OnlyTheAckMoves(c: Setup, y: Sys, a: Action)
    requires Inv(c, y) && !y.sOut.Done? && Enabled(c, y, a) && !TheAck(y, a)
    ensures Unmoved(y, Step(c, y, a))
  {
    hide Inv;
    hide Run;
    hide LegalFill;
    hide Wellformed;
    hide SenderStays;
    CurrentIsOrdinary(c, y);
    Heads(c, y);
    match a {
      case DeliverBackward(slot, len, fill) =>
        var y', p := y.(back := y.back[1..]), SeenBy(y.s, y.back[0]);
        StrayIsHarmless(c, y', slot, p, len, fill);
        StayingIsUnmoved(y, y', Run(y.s, slot, Intact(p, len), fill));
      case RefuseBackward(slot, len) =>
        var y', rx := y.(back := y.back[1..]), Damaged(y.back[0].typ, false, len);
        NoiseIsHarmless(c, y', slot, rx, Fill([], []));
        StayingIsUnmoved(y, y', Run(y.s, slot, rx, Fill([], [])));
      case NoiseAtSender(slot, rx) =>
        NoiseIsHarmless(c, y, slot, rx, Fill([], []));
        StayingIsUnmoved(y, y, Run(y.s, slot, rx, Fill([], [])));
      case _ =>
    }
  }

  /** A packet to come whose exchange is impossible is still to come, or has become the current one. */
  lemma ObstacleRemains(c: Setup, g: Cutter, y: Sys, y': Sys, sent: seq<Packet>)
    requires Legal(c, g) && y.s.next <= |c.files| && y'.s.next <= |c.files|
    requires |sent| == 1 && y'.cur == sent[0] && ToIssue(c, g, y) == sent + ToIssue(c, g, y')
    requires !AllExchangeable(c, ToIssue(c, g, y)) && !Ahead(y') && !y'.sOut.Done?
    ensures !Recoverable(c, g, y')
  {
    hide Legal;
    hide Rest;
    hide Exchangeable;
    hide Supplied;
    var i: nat :| i < |ToIssue(c, g, y)| && !Exchangeable(c, ToIssue(c, g, y)[i]);
    if i > 0 {
      assert ToIssue(c, g, y')[i - 1] == ToIssue(c, g, y)[i];
    }
  }

  lemma AckReached(c: Setup, y: Sys, slot: nat, len: int, fill: Fill)
    requires Inv(c, y) && y.sOut.Ok? && y.back != [] && y.back[0].typ == Y && y.back[0].sq == y.s.r_seq
    requires y.s.state != S_EOT && slot < |y.s.slots| && Wellformed(y.s)
    requires LegalFill(y.s, Intact(SeenBy(y.s, y.back[0]), len), fill)
    ensures Ahead(y) && Acknowledges(c, y.cur, SeenBy(y.s, y.back[0])) && y.back[0].sq == y.cur.sq
    ensures var res := Run(y.s, slot, Intact(SeenBy(y.s, y.back[0]), len), fill);
            res.out.Ok? && |res.sent| == 1 && res.sent[0].typ != E && res.sent[0].sq == y.r.r_seq
  {
    CurrentNumber(c, y);
    AheadByOne(c, y);
    CurrentInRange(c, y);
    Roles(c, y);
    Heads(c, y);
    Sequence(y.cur.sq);
    hide Inv;
    hide Run;
    hide Proceed;
    hide Acknowledges;
    hide LegalFill;
    hide Wellformed;
    hide Seen;
    var slots, p := y.s.slots[slot := Slot(0, 0)], SeenBy(y.s, y.back[0]);
    AckIsSeen(c, y.cur, y.s, y.back[0]);
    AckTaken(c, y, slot, p, len, fill);
    Proceeding(c, y, slots, p, len, fill);
    WhatIsSent(c, y, Proceed(y.s.(slots := slots), p, fill));
    hide Advances;
  }

  lemma NothingAfterTheEnd(c: Setup, g: Cutter, y: Sys)
    requires Legal(c, g) && y.s.next <= |c.files| && y.s.state == S_EOT
    ensures ToIssue(c, g, y) == []
  {
    hide Legal;
  }

  lemma MovingMeetsIt(c: Setup, g: Cutter, y: Sys, a: Action)
    requires Inv(c, y) && Legal(c, g) && Allowed(c, g, y, a) && TheAck(y, a) && y.s.next <= |c.files|
    requires y.sOut.Ok? && !AllExchangeable(c, ToIssue(c, g, y))
    ensures Step(c, y, a).s.next <= |c.files| && !Recoverable(c, g, Step(c, y, a))
  {
    if y.s.state == S_EOT {
      NothingAfterTheEnd(c, g, y);
    } else {
      AckReached(c, y, a.slot, a.len, a.fill);
      Roles(c, y);
      hide Inv;
      hide Legal;
      hide Run;
      hide Rest;
      hide Readable;
      hide LegalFill;
      hide Wellformed;
      hide Acknowledges;
      hide AllExchangeable;
      hide Recoverable;
      hide Chosen;
      hide FirstFree;
      var p := SeenBy(y.s, y.back[0]);
      AdvanceIssues(c, g, y, a.slot, p, a.len);
      ObstacleRemains(c, g, y, Step(c, y, a), Run(y.s, a.slot, Intact(p, a.len), a.fill).sent);
    }
  }

  /** A transfer that cannot be completed cannot become one that can. */
  lemma LostStaysLost(c: Setup, g: Cutter, y: Sys, a: Action)
    requires Inv(c, y) && Legal(c, g) && Allowed(c, g, y, a) && y.s.next <= |c.files| && !Recoverable(c, g, y)
    ensures Step(c, y, a).s.next <= |c.files| && !Recoverable(c, g, Step(c, y, a))
  {
    hide Inv;
    hide Legal;
    hide Step;
    hide Enabled;
    hide Readable;
    hide Rest;
    hide AllExchangeable;
    hide Chosen;
    hide FirstFree;
    StepKeepsInvariant(c, y, a);
    PendingFile(c, Step(c, y, a));
    if Blocked(c, y) {
      BlockedStays(c, y, a);
    } else if TheAck(y, a) {
      MovingMeetsIt(c, g, y, a);
    } else {
      OnlyTheAckMoves(c, y, a);
      hide Blocked;
    }
  }

  lemma {:induction false} LostCannotFinish(c: Setup, g: Cutter, y: Sys, acts: seq<Action>)
    requires Inv(c, y) && Legal(c, g) && y.s.next <= |c.files| && !Recoverable(c, g, y) && Possible(c, g, y, acts)
    ensures !Final(c, g, y, acts).sOut.Done?
    decreases |acts|
  {
    hide Inv;
    hide Legal;
    hide Enabled;
    hide Step;
    hide Rest;
    hide AllExchangeable;
    if acts != [] {
      StepKeepsInvariant(c, y, acts[0]);
      LostStaysLost(c, g, y, acts[0]);
      LostCannotFinish(c, g, Step(c, y, acts[0]), acts[1..]);
    }
  }

  lemma LostForGood(c: Setup, g: Cutter, y: Sys)
    requires Inv(c, y) && Legal(c, g) && y.s.next <= |c.files| && !Recoverable(c, g, y)
    ensures !CanFinish(c, g, y)
  {
    hide Inv;
    hide Legal;
    hide Recoverable;
    forall acts | Possible(c, g, y, acts)
      ensures !Final(c, g, y, acts).sOut.Done?
    {
      LostCannotFinish(c, g, y, acts);
    }
  }

  /** Whatever arrives of a name, the acknowledgement that repeats it has an acceptable check. */
  ghost predicate NamesComeBack(c: Setup) {
    forall n, sq, name | 0 <= n < |c.files| && 0 <= sq < 64 && NameArrived(c, c.files[n], name) ::
      CheckFits(c.bs, Stripped(c), Packet(sq, Y, name))
  }

  lemma SevenBitNamesComeBack(c: Setup)
    requires GoodSetup(c) && c.bs != 2 && SevenBit(c)
    ensures NamesComeBack(c)
  {
    hide CheckFits;
    hide BlockCheck.Chk2;
    hide Print.Header;
    hide Crosses;
    hide SenderPar;
    forall n, sq, name | 0 <= n < |c.files| && 0 <= sq < 64 && NameArrived(c, c.files[n], name)
      ensures CheckFits(c.bs, Stripped(c), Packet(sq, Y, name))
    {
      PrefixCrosses(Stripped(c), c.files[n].name, name);
      UnalteredFits(c.bs, Stripped(c), Packet(sq, Y, name));
    }
  }

  lemma NameIsExchangeable(c: Setup, g: Cutter, n: nat, sq: int)
    requires GoodSetup(c) && c.bs != 2 && NamesComeBack(c) && Legal(c, g) && n < |c.files| && 0 <= sq < 64
    ensures Exchangeable(c, Packet(sq, F, g.name(n)))
  {
    assert NameField(Config(SenderPar(c)), c.files[n].name, g.name(n));
    hide Legal;
    hide Decode;
    hide Code;
    hide Crosses;
    hide SenderPar;
    hide Sendable;
    hide CheckFits;
    hide BlockCheck.Chk2;
    hide Print.Header;
    ConfigCode(c);
    SendableCrosses(Code(c), g.name(n));
    LessCrosses(Code(c).ebqflg, g.name(n));
    UnalteredFits(c.bs, false, Packet(sq, F, g.name(n)));
    assert NameArrived(c, c.files[n], Echo(c, Packet(sq, F, g.name(n))));
  }

  lemma LessCrosses(parity: bool, s: seq<byte>)
    requires Crosses(parity, s)
    ensures Crosses(false, s)
  {
  }

  lemma OthersAreExchangeable(c: Setup, sq: int, typ: byte, data: seq<byte>)
    requires GoodSetup(c) && c.bs != 2 && typ != S && typ != F && Crosses(false, data)
    ensures Exchangeable(c, Packet(sq, typ, data))
  {
    hide Exchangeable;
    hide GoodSetup;
    OtherChecksFit(c, Packet(sq, typ, data));
  }

  lemma AttributesAreExchangeable(c: Setup, n: nat, sq: int)
    requires GoodSetup(c) && c.bs != 2 && n < |c.files|
    ensures Exchangeable(c, Packet(sq, A, AttrField(c.files[n])))
  {
    hide AttrField;
    hide Crosses;
    hide Exchangeable;
    AttrFieldCrosses(c, c.files[n]);
    LessCrosses(Stripped(c), AttrField(c.files[n]));
    OthersAreExchangeable(c, sq, A, AttrField(c.files[n]));
  }

  lemma DataIsExchangeable(c: Setup, g: Cutter, n: nat, pending: seq<byte>, sq: int)
    requires GoodSetup(c) && c.bs != 2 && Legal(c, g)
    ensures Exchangeable(c, Packet(sq, D, NextCut(c, g, n, pending).field))
  {
    assert DataField(Code(c), pending, g.data(n, pending));
    hide Legal;
    hide Decode;
    hide Code;
    hide Crosses;
    hide Exchangeable;
    hide Sendable;
    hide GoodSetup;
    SendableCrosses(Code(c), g.data(n, pending).field);
    LessCrosses(Code(c).ebqflg, g.data(n, pending).field);
    OthersAreExchangeable(c, sq, D, g.data(n, pending).field);
  }

  lemma FirstAndRest(c: Setup, p: Packet, ps: seq<Packet>)
    requires Exchangeable(c, p) && AllExchangeable(c, ps)
    ensures AllExchangeable(c, [p] + ps)
  {
    hide Exchangeable;
  }

  lemma BetweenFilesExchangeable(c: Setup, g: Cutter, sq: int, st: State, next: nat, pending: seq<byte>)
    requires GoodSetup(c) && c.bs != 2 && NamesComeBack(c) && Legal(c, g)
    requires next <= |c.files| && (st == S_INIT || st == S_EOF)
    requires next < |c.files| ==>
               AllExchangeable(c, Rest(c, g, Succ(sq), S_FILE, next + 1, c.files[next].content))
    ensures AllExchangeable(c, Rest(c, g, sq, st, next, pending))
  {
    var n := Succ(sq);
    assert AllExchangeable(c, []) && Crosses(false, []);
    hide GoodSetup;
    hide NamesComeBack;
    hide Legal;
    hide Exchangeable;
    hide AllExchangeable;
    hide Crosses;
    if next < |c.files| {
      NameIsExchangeable(c, g, next, n);
      FirstAndRest(c, Packet(n, F, g.name(next)), Rest(c, g, n, S_FILE, next + 1, c.files[next].content));
    } else {
      OthersAreExchangeable(c, n, B, []);
      FirstAndRest(c, Packet(n, B, []), []);
      assert Rest(c, g, sq, st, next, pending) == [Packet(n, B, [])] + [];
    }
  }

  lemma WithinFileExchangeable(c: Setup, g: Cutter, sq: int, st: State, next: nat, pending: seq<byte>)
    requires GoodSetup(c) && c.bs != 2 && Legal(c, g) && 0 < next <= |c.files|
    requires st == S_ATTR || st == S_DATA || (st == S_FILE && !Attributed(c))
    requires var fill := NextCut(c, g, next - 1, pending);
             if fill.field == [] then AllExchangeable(c, Rest(c, g, Succ(sq), S_EOF, next, pending))
             else AllExchangeable(c, Rest(c, g, Succ(sq), S_DATA, next, fill.rest))
    ensures AllExchangeable(c, Rest(c, g, sq, st, next, pending))
  {
    hide GoodSetup;
    hide Legal;
    hide Exchangeable;
    hide AllExchangeable;
    var n, fill := Succ(sq), NextCut(c, g, next - 1, pending);
    if fill.field == [] {
      OthersAreExchangeable(c, n, Z, []);
      FirstAndRest(c, Packet(n, Z, []), Rest(c, g, n, S_EOF, next, pending));
    } else {
      DataIsExchangeable(c, g, next - 1, pending, n);
      FirstAndRest(c, Packet(n, D, fill.field), Rest(c, g, n, S_DATA, next, fill.rest));
    }
  }

  /** With check types 1 and 3, only a name can be in the way, by coming back altered. */
  lemma {:induction false} RestIsExchangeable(c: Setup, g: Cutter, sq: int, st: State, next: nat,
                                              pending: seq<byte>)
    requires GoodSetup(c) && c.bs != 2 && NamesComeBack(c) && Legal(c, g) && next <= |c.files|
    ensures AllExchangeable(c, Rest(c, g, sq, st, next, pending))
    decreases |c.files| - next, Rank(st), |pending|
  {
    hide GoodSetup;
    hide NamesComeBack;
    hide Legal;
    hide Exchangeable;
    hide AttrField;
    var n := Succ(sq);
    if st == S_INIT || st == S_EOF {
      if next < |c.files| {
        RestIsExchangeable(c, g, n, S_FILE, next + 1, c.files[next].content);
      }
      BetweenFilesExchangeable(c, g, sq, st, next, pending);
    } else if next > 0 && st == S_FILE && Attributed(c) {
      AttributesAreExchangeable(c, next - 1, n);
      RestIsExchangeable(c, g, n, S_ATTR, next, pending);
      FirstAndRest(c, Packet(n, A, AttrField(c.files[next - 1])), Rest(c, g, n, S_ATTR, next, pending));
    } else if next > 0 && (st == S_FILE || st == S_ATTR || st == S_DATA) {
      var fill := NextCut(c, g, next - 1, pending);
      if fill.field == [] {
        RestIsExchangeable(c, g, n, S_EOF, next, pending);
      } else {
        RestIsExchangeable(c, g, n, S_DATA, next, fill.rest);
      }
      WithinFileExchangeable(c, g, sq, st, next, pending);
    }
  }

  lemma OtherChecksLeaveNothing(c: Setup, g: Cutter, y: Sys)
    requires GoodSetup(c) && c.bs != 2 && SevenBit(c) && Legal(c, g) && y.s.next <= |c.files|
    ensures AllExchangeable(c, ToIssue(c, g, y))
  {
    hide GoodSetup;
    hide SevenBit;
    hide NamesComeBack;
    hide Legal;
    hide AllExchangeable;
    SevenBitNamesComeBack(c);
    RestIsExchangeable(c, g, y.cur.sq, y.s.state, y.s.next, y.s.pending);
  }

  /**
   The exact condition for recovery: in any state of any run, and however getpkt
   cuts the files, there is a way on to success if and only if nothing blocks the
   transfer and the checks of the packets to come, and of their acknowledgements,
   will be accepted. In all other states no behaviour of the lines helps. With
   check types 1 and 3, and no eighth bits in names where these are stripped, only
   what blocks it matters.
   */
  lemma CompletionIsPossible(c: Setup, g: Cutter, ys: seq<Sys>, acts: seq<Action>, i: nat)
    requires GoodSetup(c) && Legal(c, g) && Behaviour(c, ys, acts) && i < |ys|
    ensures ys[i].s.next <= |c.files|
    ensures CanFinish(c, g, ys[i]) <==> Recoverable(c, g, ys[i])
    ensures c.bs != 2 && SevenBit(c) ==> (CanFinish(c, g, ys[i]) <==> ys[i].sOut.Done? || !Blocked(c, ys[i]))
  {
    hide Inv;
    hide Legal;
    hide Blocked;
    hide AllExchangeable;
    hide Rest;
    hide CanFinish;
    hide SevenBit;
    var y := ys[i];
    AlwaysInvariant(c, ys, acts, i);
    PendingFile(c, y);
    if c.bs != 2 && SevenBit(c) {
      OtherChecksLeaveNothing(c, g, y);
    }
    if Recoverable(c, g, y) {
      RecoverableCanFinish(c, g, y);
    } else {
      LostForGood(c, g, y);
    }
  }

  // ---- One loss and one request are enough ----

  lemma AskingAgain(k: KState, slot: nat, rx: Rx)
    requires k.what.Receiving? && slot < |k.slots| && Wellformed(k) && AsksAgain(rx)
    ensures var res := Run(k, slot, rx, Fill([], []));
            && res.sent == [Packet(k.r_seq, N, [])] && res.k.opkt == Some(res.sent[0])
            && res.k.r_seq == k.r_seq && !res.out.Done?
  {
  }

  lemma NothingToRepeat(c: Setup, y: Sys, res: Res, nak: Packet)
    requires y.sOut.Ok? && Ahead(y) && y.back == [] && res.sent == [nak] && nak.typ == N
    requires res.k.opkt == Some(nak) && res.k.r_seq == y.r.r_seq && !res.out.Done?
    ensures Blocked(c, AfterReceiver(y, res))
  {
    hide CurFits;
    hide AckFits;
    hide FirstFree;
    assert AfterReceiver(y, res).back == [nak];
  }

  lemma AskingBlocks(c: Setup, y: Sys, slot: nat, rx: Rx)
    requires Inv(c, y) && y.sOut.Ok? && y.rOut.Ok? && Ahead(y) && y.back == [] && slot < 4 && AsksAgain(rx)
    ensures |y.r.slots| == 4 && Wellformed(y.r)
    ensures Blocked(c, AfterReceiver(y, Run(y.r, slot, rx, Fill([], []))))
  {
    hide Inv;
    hide Run;
    hide Blocked;
    hide Wellformed;
    BothWellformed(c, y);
    Roles(c, y);
    AskingAgain(y.r, slot, rx);
    NothingToRepeat(c, y, Run(y.r, slot, rx, Fill([], [])), Packet(y.r.r_seq, N, []));
  }

  lemma TwoSteps(c: Setup, g: Cutter, y: Sys, a: Action, b: Action)
    requires Allowed(c, g, y, a) && Allowed(c, g, Step(c, y, a), b)
    ensures Possible(c, g, y, [a, b]) && Final(c, g, y, [a, b]) == Step(c, Step(c, y, a), b)
  {
    hide Enabled;
    hide Readable;
    hide Step;
    hide Chosen;
    var acts := [a, b];
    assert acts[1..] == [b] && [b][1..] == [];
    var y' := Step(c, y, a);
    assert Possible(c, g, y', [b]) && Final(c, g, y', [b]) == Step(c, y', b);
  }

  lemma NakIsFatal(c: Setup, g: Cutter, y: Sys, rx: Rx)
    requires Inv(c, y) && Legal(c, g) && AsksAgain(rx)
    requires y.sOut.Ok? && y.rOut.Ok? && Ahead(y) && y.back == [] && Supplied(y)
    ensures var asks := NoiseAtReceiver(FirstFree(y.r.slots, 0), rx);
            Allowed(c, g, y, asks) && !CanFinish(c, g, Step(c, y, asks))
  {
    hide Inv;
    hide Legal;
    hide CanFinish;
    hide FirstFree;
    hide Blocked;
    hide Run;
    hide Wellformed;
    hide Chosen;
    var asks := NoiseAtReceiver(FirstFree(y.r.slots, 0), rx);
    BothWellformed(c, y);
    AskingBlocks(c, y, asks.slot, rx);
    CanHearNoise(c, y, asks.slot, rx);
    StepKeepsInvariant(c, y, asks);
    PendingFile(c, Step(c, y, asks));
    LostForGood(c, g, Step(c, y, asks));
  }

  /**
   One loss and one request are enough, at any point of any transfer: when the only
   acknowledgement under way is lost and the receiver then asks again, because of an
   overlong, empty or damaged read, nothing can complete the transfer any more.
   */
  lemma LossThenNakIsFatal(c: Setup, g: Cutter, ys: seq<Sys>, acts: seq<Action>, i: nat, rx: Rx)
    requires GoodSetup(c) && Legal(c, g) && Behaviour(c, ys, acts) && i < |ys| && AsksAgain(rx)
    requires ys[i].sOut.Ok? && ys[i].rOut.Ok? && Ahead(ys[i]) && |ys[i].back| == 1 && Supplied(ys[i])
    ensures var fatal := [LoseBackward(0), NoiseAtReceiver(FirstFree(ys[i].r.slots, 0), rx)];
            Possible(c, g, ys[i], fatal) && !CanFinish(c, g, Final(c, g, ys[i], fatal))
  {
    hide Inv;
    hide Legal;
    hide CanFinish;
    hide FirstFree;
    hide Run;
    hide Chosen;
    var y := ys[i];
    AlwaysInvariant(c, ys, acts, i);
    StepKeepsInvariant(c, y, LoseBackward(0));
    var y' := Step(c, y, LoseBackward(0));
    assert y' == y.(back := []);
    NakIsFatal(c, g, y', rx);
    TwoSteps(c, g, y, LoseBackward(0), NoiseAtReceiver(FirstFree(y.r.slots, 0), rx));
  }
}
