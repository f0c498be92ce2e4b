/**
 A sender and a receiver joined by two lines. Packets arrive in order but may be
 lost or damaged; noise may make either side ask again at any time. Over every
 run the receiver holds an exact prefix of what is being sent.
 */
module Transfer {
  import opened Bytes
  import opened Codec
  import opened SendCodec
  import opened Negotiation
  import opened Attributes
  import opened Engine

  /** Parity, block check type and whether attributes are offered, at the two ends, and the files to send. */
  datatype Setup = Setup(ps: int, bs: int, sa: bool, pr: int, br: int, ra: bool, files: seq<File>)

  const FN_MAX: nat := 1024  // what a file name is stored in, with its NUL

  /** A name and a date their buffers can hold, and on a line with parity no eighth bits in the date. */
  predicate GoodFile(parity: bool, f: File) {
    && f.name != [] && 0 !in f.name && |f.name| < FN_MAX
    && Crosses(parity, f.date) && |f.date| < DATE_MAX
    && |f.content| < Pow10(14)
  }

  /** Parity at either end makes both strip eighth bits once they have negotiated. */
  predicate Stripped(c: Setup) {
    c.ps != 0 || c.pr != 0
  }

  /** Attributes are sent when both ends offer them. */
  predicate Attributed(c: Setup) {
    c.sa && c.ra
  }

  predicate GoodSetup(c: Setup) {
    1 <= c.bs <= 3 && 1 <= c.br <= 3 && forall i :: 0 <= i < |c.files| ==> GoodFile(Stripped(c), c.files[i])
  }

  /**
   The two control structures, how their last calls ended, and the packets under
   way. `cur` is the packet the sender waits to have acknowledged.
   */
  datatype Sys = Sys(s: KState, r: KState, sOut: Outcome, rOut: Outcome,
                     fwd: seq<Packet>, back: seq<Packet>, cur: Packet)

  datatype Action =
    | LoseForward(i: nat)
    | LoseBackward(i: nat)
    | DeliverForward(slot: nat, len: int)
    | DeliverBackward(slot: nat, len: int, fill: Fill)
    | RefuseForward(slot: nat, len: int)     // the packet is read, and its check fails
    | RefuseBackward(slot: nat, len: int)
    | NoiseAtReceiver(slot: nat, rx: Rx)
    | NoiseAtSender(slot: nat, rx: Rx)

  function Drop<T>(q: seq<T>, i: nat): seq<T>
    requires i < |q|
  {
    q[..i] + q[i + 1..]
  }

  predicate Enabled(c: Setup, y: Sys, a: Action) {
    match a
    case LoseForward(i) => i < |y.fwd|
    case LoseBackward(i) => i < |y.back|
    case DeliverForward(slot, _) => y.rOut.Ok? && y.fwd != [] && slot < |y.r.slots| && Wellformed(y.r)
    case DeliverBackward(slot, len, fill) =>
      && y.sOut.Ok? && y.back != [] && slot < |y.s.slots| && Wellformed(y.s)
      && LegalFill(y.s, Intact(SeenBy(y.s, y.back[0]), len), fill)
    case RefuseForward(slot, _) => y.rOut.Ok? && y.fwd != [] && slot < |y.r.slots| && Wellformed(y.r)
    case RefuseBackward(slot, _) => y.sOut.Ok? && y.back != [] && slot < |y.s.slots| && Wellformed(y.s)
    case NoiseAtReceiver(slot, rx) => y.rOut.Ok? && slot < |y.r.slots| && Wellformed(y.r) && !rx.Intact?
    case NoiseAtSender(slot, rx) => y.sOut.Ok? && slot < |y.s.slots| && Wellformed(y.s) && !rx.Intact?
  }

  /** The receiver's call is over: its answer is on the line. */
  function AfterReceiver(y: Sys, res: Res): Sys {
    y.(r := res.k, rOut := res.out, back := y.back + res.sent)
  }

  /** The sender's call is over; a new packet that is not an E packet is what it waits for now. */
  function AfterSender(y: Sys, res: Res): Sys {
    y.(s := res.k, sOut := res.out, fwd := y.fwd + res.sent,
       cur := if res.sent != [] && res.sent[0].typ != E then res.sent[0] else y.cur)
  }

  function Step(c: Setup, y: Sys, a: Action): Sys
    requires Enabled(c, y, a)
  {
    match a
    case LoseForward(i) => y.(fwd := Drop(y.fwd, i))
    case LoseBackward(i) => y.(back := Drop(y.back, i))
    case DeliverForward(slot, len) =>
      AfterReceiver(y.(fwd := y.fwd[1..]), Run(y.r, slot, Intact(SeenBy(y.r, y.fwd[0]), len), Fill([], [])))
    case DeliverBackward(slot, len, fill) =>
      AfterSender(y.(back := y.back[1..]), Run(y.s, slot, Intact(SeenBy(y.s, y.back[0]), len), fill))
    case RefuseForward(slot, len) =>
      AfterReceiver(y.(fwd := y.fwd[1..]), Run(y.r, slot, Damaged(y.fwd[0].typ, false, len), Fill([], [])))
    case RefuseBackward(slot, len) =>
      AfterSender(y.(back := y.back[1..]), Run(y.s, slot, Damaged(y.back[0].typ, false, len), Fill([], [])))
    case NoiseAtReceiver(slot, rx) => AfterReceiver(y, Run(y.r, slot, rx, Fill([], [])))
    case NoiseAtSender(slot, rx) => AfterSender(y, Run(y.s, slot, rx, Fill([], [])))
  }

  /** The sender has sent its S packet, the receiver waits. */
  function Start(c: Setup): Sys {
    var res := StartSending(Idle(c.ps, c.bs).(par := Offer(c.ps, c.bs, c.sa), files := c.files));
    Sys(res.k, Idle(c.pr, c.br).(par := Offer(c.pr, c.br, c.ra)), Ok, Ok, res.sent, [], res.sent[0])
  }

  predicate Behaviour(c: Setup, ys: seq<Sys>, acts: seq<Action>) {
    && |ys| == |acts| + 1
    && ys[0] == Start(c)
    && forall i :: 0 <= i < |acts| ==> Enabled(c, ys[i], acts[i]) && ys[i + 1] == Step(c, ys[i], acts[i])
  }

  // ---- What negotiation leads to ----

  /** The sender's parameters once negotiated. */
  function SenderPar(c: Setup): Params {
    AfterY(c.ps, c.bs, c.sa, c.pr, c.br, c.ra)
  }

  function ReceiverPar(c: Setup): Params {
    AfterS(c.ps, c.bs, c.sa, c.pr, c.br, c.ra)
  }

  /** The code the receiver reads data fields with. */
  function Code(c: Setup): Quoting {
    DecodeQuoting(ReceiverPar(c))
  }

  /** The S packet, and the data field of its acknowledgement. */
  function Opening(c: Setup): Packet {
    Packet(0, S, Announce(Offer(c.ps, c.bs, c.sa)))
  }

  function Reply(c: Setup): seq<byte> {
    Announce(Adopt(Offer(c.pr, c.br, c.ra), Announce(Offer(c.ps, c.bs, c.sa))))
  }

  lemma Negotiated(c: Setup)
    requires GoodSetup(c)
    ensures Code(c).ebqflg == Stripped(c) == (ReceiverPar(c).parity != 0) == (SenderPar(c).parity != 0)
    ensures EncodeQuoting(SenderPar(c)) == Code(c) && Config(SenderPar(c)).Usable()
    ensures Has(SenderPar(c).capas, CAP_AT) <==> Attributed(c)
    ensures SenderPar(c) == Adopt(Requested(Offer(c.ps, c.bs, c.sa)), Reply(c))
    ensures ReceiverPar(c) == Requested(Adopt(Offer(c.pr, c.br, c.ra), Opening(c).data))
  {
    NegotiationAgrees(c.ps, c.bs, c.sa, c.pr, c.br, c.ra);
  }

  // ---- The invariant ----

  /** The receiver has accepted the packet the sender waits for. */
  predicate Ahead(y: Sys) {
    y.r.r_seq != y.cur.sq
  }

  /** On the forward line: an E packet, a copy of the current packet, or an older one the receiver has seen. */
  predicate Carried(y: Sys, p: Packet) {
    p.typ == E || p == y.cur || (!Ahead(y) && p.sq == Prev(y.cur.sq))
  }

  /** Once a copy of the current packet has arrived, no older packet can follow. */
  predicate ForwardLine(y: Sys) {
    && (forall i :: 0 <= i < |y.fwd| ==> Carried(y, y.fwd[i]))
    && (forall i, j :: 0 <= i < j < |y.fwd| && y.fwd[i] == y.cur ==> y.fwd[j].typ == E || y.fwd[j] == y.cur)
  }

  /** An answer is a NAK, an E packet, or an acknowledgement of the previous or, once accepted, the current packet. */
  predicate Answer(c: Setup, y: Sys, p: Packet) {
    || p.typ == N || p.typ == E
    || (p.typ == Y && p.sq == Prev(y.cur.sq))
    || (p.typ == Y && p.sq == y.cur.sq && Ahead(y) && Acknowledges(c, y.cur, p))
  }

  /** What the acknowledgement of the current packet says. */
  predicate Acknowledges(c: Setup, cur: Packet, p: Packet) {
    && (cur.typ == S ==> p.data == Reply(c))
    && (cur.typ == D ==> p.data == [])
  }

  predicate BackwardLine(c: Setup, y: Sys) {
    && (forall i :: 0 <= i < |y.back| ==> Answer(c, y, y.back[i]))
    && (forall i, j :: 0 <= i < j < |y.back| && y.back[i].typ == Y && y.back[j].typ == Y && y.back[i].sq == y.cur.sq
          ==> y.back[j].sq == y.cur.sq)
  }

  /** What the receiver would repeat; if it is an acknowledgement, one of the last packet it accepted. */
  predicate Repeatable(c: Setup, y: Sys) {
    y.r.opkt.Some? ==>
      && Answer(c, y, y.r.opkt.value)
      && (y.r.opkt.value.typ == Y ==> y.r.opkt.value.sq == Prev(y.r.r_seq))
  }

  predicate Numbers(y: Sys) {
    && 0 <= y.cur.sq < 64
    && (y.r.r_seq == y.cur.sq || y.r.r_seq == Succ(y.cur.sq))
    && (y.sOut.Ok? ==> y.s.s_seq == y.s.r_seq == y.cur.sq && y.s.opkt == Some(y.cur))
  }

  /** A name as it may arrive: whole, unless it might not fit one packet. */
  predicate NameArrived(c: Setup, f: File, name: seq<byte>) {
    NameMatches(Config(SenderPar(c)), f.name, name)
  }

  /** The attributes of the file, if they are sent at all. */
  predicate AttrsArrived(c: Setup, f: File, a: Attrs) {
    a == if Attributed(c) then Attrs(if f.binary then 1 else 0, f.date, |f.content|, 0) else NO_ATTRS
  }

  predicate Arrived(c: Setup, f: File, e: Received) {
    NameArrived(c, f, e.name) && e.content == f.content && AttrsArrived(c, f, e.attrs)
  }

  /** The received files are the first `n` of the list, in order. */
  predicate Complete(c: Setup, log: seq<Received>, n: nat) {
    n <= |c.files| && |log| == n && forall i :: 0 <= i < n ==> Arrived(c, c.files[i], log[i])
  }

  /** The sender is working on file `f`, and all before it have arrived. */
  predicate Working(c: Setup, y: Sys, f: File) {
    && 1 <= y.s.next <= |c.files| && f == c.files[y.s.next - 1]
    && Complete(c, y.r.log, y.s.next - 1)
  }

  predicate Opened(c: Setup, y: Sys) {
    && y.cur == Opening(c) && y.s.next == 0
    && y.r.log == []
    && y.r.state == if Ahead(y) then R_FILE else R_WAIT
  }

  predicate Named(c: Setup, y: Sys, f: File) {
    && y.cur.typ == F && Working(c, y, f) && y.s.pending == f.content
    && Sendable(Code(c), y.cur.data) && Decode(Code(c), y.cur.data).Some?
    && NameArrived(c, f, Decode(Code(c), y.cur.data).value)
    && if Ahead(y) then
         && y.r.state == R_ATTR && y.r.filename == Decode(Code(c), y.cur.data).value
         && y.r.attrs == NO_ATTRS
       else y.r.state == R_FILE
  }

  predicate Described(c: Setup, y: Sys, f: File) {
    && Attributed(c) && y.cur.typ == A && y.cur.data == AttrField(f)
    && Working(c, y, f) && y.s.pending == f.content
    && y.r.state == R_ATTR && NameArrived(c, f, y.r.filename)
    && (Ahead(y) ==> AttrsArrived(c, f, y.r.attrs))
  }

  /** The bytes that have arrived, those in the current packet unless accepted, and those pending make up the file. */
  predicate Flowing(c: Setup, y: Sys, f: File) {
    && y.cur.typ == D && Working(c, y, f)
    && NameArrived(c, f, y.r.filename) && AttrsArrived(c, f, y.r.attrs)
    && Sendable(Code(c), y.cur.data) && Decode(Code(c), y.cur.data).Some?
    && var bytes := Decode(Code(c), y.cur.data).value;
       if Ahead(y) then y.r.state == R_DATA && y.r.delivered + y.s.pending == f.content
       else if y.r.state == R_ATTR then bytes + y.s.pending == f.content
       else y.r.state == R_DATA && y.r.delivered + bytes + y.s.pending == f.content
  }

  predicate Ending(c: Setup, y: Sys, f: File) {
    && y.cur.typ == Z && y.cur.data == [] && 1 <= y.s.next <= |c.files| && f == c.files[y.s.next - 1]
    && if Ahead(y) then y.r.state == R_FILE && Complete(c, y.r.log, y.s.next)
       else
         && Working(c, y, f) && NameArrived(c, f, y.r.filename) && AttrsArrived(c, f, y.r.attrs)
         && ((y.r.state == R_ATTR && f.content == []) || (y.r.state == R_DATA && y.r.delivered == f.content))
  }

  predicate Closing(c: Setup, y: Sys) {
    && y.cur.typ == B && y.cur.data == [] && y.s.next == |c.files|
    && y.r.state == R_FILE && Complete(c, y.r.log, |c.files|)
    && (Ahead(y) ==> y.rOut.Done?)
  }

  /** How far the two ends have got, by the state of the sender. */
  predicate Progress(c: Setup, y: Sys) {
    match y.s.state
    case S_INIT => Opened(c, y)
    case S_FILE => 1 <= y.s.next <= |c.files| && Named(c, y, c.files[y.s.next - 1])
    case S_ATTR => 1 <= y.s.next <= |c.files| && Described(c, y, c.files[y.s.next - 1])
    case S_DATA => 1 <= y.s.next <= |c.files| && Flowing(c, y, c.files[y.s.next - 1])
    case S_EOF => 1 <= y.s.next <= |c.files| && Ending(c, y, c.files[y.s.next - 1])
    case S_EOT => Closing(c, y)
    case _ => false
  }

  predicate Shape(c: Setup, y: Sys) {
    && y.s.what.Sending? && y.r.what.Receiving? && y.s.files == c.files
    && |y.s.slots| == 4 && |y.r.slots| == 4
    && (y.sOut.Ok? ==> y.s.par == if y.s.state == S_INIT then Requested(Offer(c.ps, c.bs, c.sa)) else SenderPar(c))
    && (!y.rOut.Failed? ==>
          y.r.par == if y.s.state == S_INIT && !Ahead(y) then Offer(c.pr, c.br, c.ra) else ReceiverPar(c))
    && (y.rOut.Done? ==> y.s.state == S_EOT && Ahead(y))
    && (y.sOut.Done? ==> y.rOut.Done?)
    && Expected(y.sOut) && Expected(y.rOut)
  }

  /** No packet of an unexpected type, and no data field that cannot be decoded, ever. */
  predicate Expected(out: Outcome) {
    out != Failed(UnexpectedType) && out != Failed(Malformed)
  }

  predicate Inv(c: Setup, y: Sys) {
    && GoodSetup(c) && Shape(c, y) && Numbers(y) && Progress(c, y)
    && ForwardLine(y) && BackwardLine(c, y) && Repeatable(c, y)
  }

  // ---- The lines ----

  lemma Sequence(sq: int)
    requires 0 <= sq < 64
    ensures 0 <= Prev(sq) < 64 && 0 <= Succ(sq) < 64
    ensures Prev(Succ(sq)) == sq && Succ(sq) != sq && Prev(sq) != sq && Prev(sq) != Succ(sq)
  {
  }

  lemma CurrentType(c: Setup, y: Sys)
    requires Progress(c, y)
    ensures y.cur.typ != E && y.cur.typ != N && y.cur.typ != Y
  {
  }

  lemma Losing(c: Setup, y: Sys, i: nat)
    requires Inv(c, y)
    ensures i < |y.fwd| ==> Inv(c, y.(fwd := Drop(y.fwd, i)))
    ensures i < |y.back| ==> Inv(c, y.(back := Drop(y.back, i)))
  {
    hide Progress;
    hide SenderPar;
    hide ReceiverPar;
    hide Offer;
    hide Requested;
    hide Acknowledges;
    if i < |y.fwd| {
      LosingForward(c, y, i);
    }
    if i < |y.back| {
      LosingBackward(c, y, i);
    }
  }

  lemma LosingForward(c: Setup, y: Sys, i: nat)
    requires Inv(c, y) && i < |y.fwd|
    ensures Inv(c, y.(fwd := Drop(y.fwd, i)))
  {
    hide Progress;
    hide SenderPar;
    hide ReceiverPar;
    hide Offer;
    hide Requested;
    hide Acknowledges;
    var y' := y.(fwd := Drop(y.fwd, i));
    SameState(c, y, y');
    assert Shape(c, y');
    hide Shape;
    assert forall k :: 0 <= k < |y'.fwd| ==> y'.fwd[k] == y.fwd[if k < i then k else k + 1];
  }

  lemma LosingBackward(c: Setup, y: Sys, i: nat)
    requires Inv(c, y) && i < |y.back|
    ensures Inv(c, y.(back := Drop(y.back, i)))
  {
    hide Progress;
    hide SenderPar;
    hide ReceiverPar;
    hide Offer;
    hide Requested;
    hide Acknowledges;
    var y' := y.(back := Drop(y.back, i));
    SameState(c, y, y');
    assert Shape(c, y');
    hide Shape;
    assert forall k :: 0 <= k < |y'.back| ==> y'.back[k] == y.back[if k < i then k else k + 1];
  }

  /** What is on the lines, what would be repeated and the slots do not enter into how far the ends have got. */
  lemma SameState(c: Setup, y: Sys, y': Sys)
    requires Progress(c, y) && y'.cur == y.cur && (y.rOut.Done? ==> y'.rOut.Done?)
    requires y'.s == y.s.(s_seq := y'.s.s_seq, r_seq := y'.s.r_seq, opkt := y'.s.opkt, par := y'.s.par,
                          slots := y'.s.slots)
    requires y'.r == y.r.(s_seq := y'.r.s_seq, opkt := y'.r.opkt, par := y'.r.par, slots := y'.r.slots)
    ensures Progress(c, y') && Ahead(y') == Ahead(y)
  {
    hide Complete;
    hide Decode;
    hide NameArrived;
    hide AttrsArrived;
    hide Code;
    hide Opening;
    hide AttrField;
  }

  /** The sender repeats its current packet. */
  lemma SenderRepeats(c: Setup, y: Sys, slots: seq<Slot>)
    requires Inv(c, y) && |slots| == 4
    ensures Inv(c, y.(s := y.s.(slots := slots), fwd := y.fwd + [y.cur]))
  {
    hide Progress;
    hide SenderPar;
    hide ReceiverPar;
    hide Offer;
    hide Requested;
    hide Acknowledges;
    var y' := y.(s := y.s.(slots := slots), fwd := y.fwd + [y.cur]);
    SameState(c, y, y');
    assert Shape(c, y');
    hide Shape;
    assert ForwardLine(y');
  }

  /** The sender gives up, with or without an E packet. */
  lemma SenderGivesUp(c: Setup, y: Sys, k: KState, sent: seq<Packet>, reason: Reason)
    requires Inv(c, y)
    requires k == y.s.(s_seq := k.s_seq, opkt := k.opkt, par := k.par, slots := k.slots) && |k.slots| == 4
    requires |sent| <= 1 && (sent != [] ==> sent[0].typ == E)
    requires Expected(Failed(reason)) && !y.sOut.Done?
    ensures Inv(c, y.(s := k, sOut := Failed(reason), fwd := y.fwd + sent))
  {
    hide Progress;
    hide SenderPar;
    hide ReceiverPar;
    hide Offer;
    hide Requested;
    hide Acknowledges;
    var y' := y.(s := k, sOut := Failed(reason), fwd := y.fwd + sent);
    SameState(c, y, y');
    assert Shape(c, y');
    hide Shape;
    assert ForwardLine(y');
  }

  /** The receiver says something that is not an acknowledgement, and may give up with it. */
  lemma ReceiverObjects(c: Setup, y: Sys, k: KState, sent: seq<Packet>, out: Outcome)
    requires Inv(c, y) && y.rOut.Ok?
    requires k == y.r.(s_seq := k.s_seq, opkt := k.opkt, par := k.par, slots := k.slots) && |k.slots| == 4
    requires |sent| <= 1 && (sent != [] ==> sent[0].typ == N || sent[0].typ == E)
    requires k.opkt == if sent == [] then y.r.opkt else Some(sent[0])
    requires out.Ok? ==> k.par == y.r.par
    requires !out.Done? && Expected(out)
    ensures Inv(c, y.(r := k, rOut := out, back := y.back + sent))
  {
    hide Progress;
    hide SenderPar;
    hide ReceiverPar;
    hide Offer;
    hide Requested;
    hide Acknowledges;
    var y' := y.(r := k, rOut := out, back := y.back + sent);
    SameState(c, y, y');
    assert Shape(c, y');
    hide Shape;
    assert BackwardLine(c, y');
  }

  /** The receiver repeats what it said last. */
  lemma ReceiverRepeats(c: Setup, y: Sys, slots: seq<Slot>)
    requires Inv(c, y) && |slots| == 4
    ensures Inv(c, y.(r := y.r.(slots := slots), back := y.back + if y.r.opkt.Some? then [y.r.opkt.value] else []))
  {
    hide Progress;
    hide SenderPar;
    hide ReceiverPar;
    hide Offer;
    hide Requested;
    hide Acknowledges;
    var y' := y.(r := y.r.(slots := slots), back := y.back + if y.r.opkt.Some? then [y.r.opkt.value] else []);
    Sequence(y.cur.sq);
    SameState(c, y, y');
    assert Shape(c, y');
    hide Shape;
    assert BackwardLine(c, y');
  }

  /** The receiver accepts the current packet and acknowledges it. */
  lemma ReceiverAccepts(c: Setup, y: Sys, k: KState, answer: Packet, out: Outcome)
    requires Inv(c, y) && !Ahead(y) && forall i :: 0 <= i < |y.fwd| ==> y.fwd[i].typ == E || y.fwd[i] == y.cur
    requires k.r_seq == Succ(y.cur.sq) && k.opkt == Some(answer)
    requires answer.typ == Y && answer.sq == y.cur.sq && Acknowledges(c, y.cur, answer)
    requires var y' := y.(r := k, rOut := out, back := y.back + [answer]); Progress(c, y') && Shape(c, y')
    ensures Inv(c, y.(r := k, rOut := out, back := y.back + [answer]))
  {
    hide Progress;
    hide Shape;
    hide SenderPar;
    hide ReceiverPar;
    hide Offer;
    hide Requested;
    hide Acknowledges;
    var y' := y.(r := k, rOut := out, back := y.back + [answer]);
    Sequence(y.cur.sq);
    CurrentType(c, y);
    assert Ahead(y');
    assert BackwardLine(c, y');
  }

  /** The sender takes the acknowledgement and sends the next packet. */
  lemma SenderAdvances(c: Setup, y: Sys, k: KState, p: Packet)
    requires Inv(c, y) && Ahead(y)
    requires forall i :: 0 <= i < |y.back| && y.back[i].typ == Y ==> y.back[i].sq == y.cur.sq
    requires p.sq == Succ(y.cur.sq) && k.s_seq == k.r_seq == p.sq && k.opkt == Some(p)
    requires var y' := y.(s := k, fwd := y.fwd + [p], cur := p); Progress(c, y') && Shape(c, y')
    ensures Inv(c, y.(s := k, fwd := y.fwd + [p], cur := p))
  {
    hide Progress;
    hide Shape;
    hide SenderPar;
    hide ReceiverPar;
    hide Offer;
    hide Requested;
    hide Acknowledges;
    var y' := y.(s := k, fwd := y.fwd + [p], cur := p);
    Sequence(y.cur.sq);
    CurrentType(c, y);
    CurrentType(c, y');
    assert !Ahead(y');
    assert ForwardLine(y');
    assert BackwardLine(c, y');
  }

  // ---- Accepting, one lemma for each packet type ----

  /** The receiver has taken the current packet: it answers with an acknowledgement, and both ends agree on it. */
  predicate Accepts(c: Setup, y: Sys, res: Res, slots: seq<Slot>) {
    && res.k.what.Receiving? && |res.sent| == 1
    && var answer := res.sent[0];
       var k := res.k.(slots := slots);
       var y' := y.(r := k, rOut := res.out, back := y.back + [answer]);
       && k.r_seq == Succ(y.cur.sq) && k.opkt == Some(answer)
       && answer.typ == Y && answer.sq == y.cur.sq && Acknowledges(c, y.cur, answer)
       && !res.out.Failed?
       && Progress(c, y') && Shape(c, y')
  }

  /** The receiver is about to take the current packet, in state `state` of the sender. */
  predicate Taking(c: Setup, y: Sys, slots: seq<Slot>, slots': seq<Slot>) {
    Inv(c, y) && y.rOut.Ok? && !Ahead(y) && |slots| == |slots'| == 4
  }

  lemma AcceptOpening(c: Setup, y: Sys, slots: seq<Slot>, slots': seq<Slot>)
    requires Taking(c, y, slots, slots') && y.s.state == S_INIT
    ensures Accepts(c, y, Receive(y.r.(slots := slots), y.cur), slots')
  {
    hide GoodSetup;
    hide Named;
    hide Described;
    hide Flowing;
    hide Ending;
    hide Closing;
    hide ForwardLine;
    hide BackwardLine;
    hide Repeatable;
    hide Adopt;
    hide Announce;
    hide Offer;
    hide Requested;
    hide Has;
    hide Config;
    Sequence(y.cur.sq);
    Negotiated(c);
  }

  lemma AcceptName(c: Setup, y: Sys, slots: seq<Slot>, slots': seq<Slot>)
    requires Taking(c, y, slots, slots') && y.s.state == S_FILE
    ensures Accepts(c, y, Receive(y.r.(slots := slots), y.cur), slots')
  {
    hide GoodSetup;
    hide Adopt;
    hide Announce;
    hide Config;
    hide Opened;
    hide Described;
    hide Flowing;
    hide Ending;
    hide Closing;
    hide ForwardLine;
    hide BackwardLine;
    hide Repeatable;
    hide Decode;
    hide NameArrived;
    hide Complete;
    hide SenderPar;
    hide ReceiverPar;
    hide Offer;
    hide Requested;
    Sequence(y.cur.sq);
  }

  lemma AcceptAttributes(c: Setup, y: Sys, slots: seq<Slot>, slots': seq<Slot>)
    requires Taking(c, y, slots, slots') && y.s.state == S_ATTR
    ensures Accepts(c, y, Receive(y.r.(slots := slots), y.cur), slots')
  {
    hide Adopt;
    hide Announce;
    hide Config;
    hide Opened;
    hide Named;
    hide Flowing;
    hide Ending;
    hide Closing;
    hide ForwardLine;
    hide BackwardLine;
    hide Repeatable;
    hide NameArrived;
    hide Complete;
    hide SenderPar;
    hide ReceiverPar;
    hide Offer;
    hide Requested;
    hide ReadAttrs;
    hide AttrString;
    Sequence(y.cur.sq);
    var f := c.files[y.s.next - 1];
    AttributeRoundTrip(f.binary, |f.content|, f.date);
  }

  lemma AcceptData(c: Setup, y: Sys, slots: seq<Slot>, slots': seq<Slot>)
    requires Taking(c, y, slots, slots') && y.s.state == S_DATA
    ensures Accepts(c, y, Receive(y.r.(slots := slots), y.cur), slots')
  {
    hide GoodSetup;
    hide Adopt;
    hide Announce;
    hide Config;
    hide Opened;
    hide Named;
    hide Described;
    hide Ending;
    hide Closing;
    hide ForwardLine;
    hide BackwardLine;
    hide Repeatable;
    hide Decode;
    hide NameArrived;
    hide AttrsArrived;
    hide Complete;
    hide SenderPar;
    hide ReceiverPar;
    hide Offer;
    hide Requested;
    Sequence(y.cur.sq);
  }

  lemma LogGrows(c: Setup, log: seq<Received>, n: nat, e: Received)
    requires Complete(c, log, n) && n < |c.files| && Arrived(c, c.files[n], e)
    ensures Complete(c, log + [e], n + 1)
  {
    hide NameArrived;
    hide AttrsArrived;
  }

  lemma AcceptEnd(c: Setup, y: Sys, slots: seq<Slot>, slots': seq<Slot>)
    requires Taking(c, y, slots, slots') && y.s.state == S_EOF
    ensures Accepts(c, y, Receive(y.r.(slots := slots), y.cur), slots')
  {
    hide GoodSetup;
    hide Adopt;
    hide Announce;
    hide Config;
    hide Opened;
    hide Named;
    hide Described;
    hide Flowing;
    hide Closing;
    hide ForwardLine;
    hide BackwardLine;
    hide Repeatable;
    hide NameArrived;
    hide AttrsArrived;
    hide SenderPar;
    hide ReceiverPar;
    hide Offer;
    hide Requested;
    Sequence(y.cur.sq);
    var f := c.files[y.s.next - 1];
    LogGrows(c, y.r.log, y.s.next - 1, Received(y.r.filename, f.content, y.r.attrs));
    hide Complete;
  }

  lemma AcceptBreak(c: Setup, y: Sys, slots: seq<Slot>, slots': seq<Slot>)
    requires Taking(c, y, slots, slots') && y.s.state == S_EOT
    ensures Accepts(c, y, Receive(y.r.(slots := slots), y.cur), slots')
  {
    hide GoodSetup;
    hide Adopt;
    hide Announce;
    hide Config;
    hide Opened;
    hide Named;
    hide Described;
    hide Flowing;
    hide Ending;
    hide ForwardLine;
    hide BackwardLine;
    hide Repeatable;
    hide Complete;
    hide SenderPar;
    hide ReceiverPar;
    hide Offer;
    hide Requested;
    Sequence(y.cur.sq);
  }

  lemma Accepting(c: Setup, y: Sys, slots: seq<Slot>, slots': seq<Slot>)
    requires Taking(c, y, slots, slots')
    ensures Accepts(c, y, Receive(y.r.(slots := slots), y.cur), slots')
  {
    hide Accepts;
    hide Receive;
    match y.s.state {
      case S_INIT => AcceptOpening(c, y, slots, slots');
      case S_FILE => AcceptName(c, y, slots, slots');
      case S_ATTR => AcceptAttributes(c, y, slots, slots');
      case S_DATA => AcceptData(c, y, slots, slots');
      case S_EOF => AcceptEnd(c, y, slots, slots');
      case S_EOT => AcceptBreak(c, y, slots, slots');
    }
  }

  // ---- Proceeding, one lemma for each state of the sender ----

  /** The sender has sent the next packet, and both ends agree on how far they have got. */
  predicate Advances(c: Setup, y: Sys, res: Res) {
    && res.out.Ok? && |res.sent| == 1
    && var p := res.sent[0];
       var y' := y.(s := res.k, fwd := y.fwd + [p], cur := p);
       && p.typ != E
       && p.sq == Succ(y.cur.sq) && res.k.s_seq == res.k.r_seq == p.sq && res.k.opkt == Some(p)
       && Progress(c, y') && Shape(c, y')
  }

  /** The sender holds the acknowledgement `p` of its current packet and a field from getpkt. */
  predicate Holding(c: Setup, y: Sys, slots: seq<Slot>, p: Packet, len: int, fill: Fill) {
    && Inv(c, y) && y.sOut.Ok? && Ahead(y) && |slots| == 4
    && p.typ == Y && p.sq == y.cur.sq && Acknowledges(c, y.cur, p)
    && LegalFill(y.s, Intact(p, len), fill)
  }

  lemma ProceedOpening(c: Setup, y: Sys, slots: seq<Slot>, p: Packet, len: int, fill: Fill)
    requires Holding(c, y, slots, p, len, fill) && y.s.state == S_INIT
    ensures Advances(c, y, Proceed(y.s.(slots := slots), p, fill))
  {
    hide GoodSetup;
    hide Described;
    hide Flowing;
    hide Ending;
    hide ForwardLine;
    hide BackwardLine;
    hide Repeatable;
    hide Adopt;
    hide Announce;
    hide Offer;
    hide Requested;
    hide Has;
    hide Config;
    hide Decode;
    hide SenderPar;
    hide ReceiverPar;
    Sequence(y.cur.sq);
    Negotiated(c);
    ConfigCode(c);
  }

  /** The sender's code is the receiver's. */
  lemma ConfigCode(c: Setup)
    requires GoodSetup(c)
    ensures Config(SenderPar(c)).q == Code(c)
    ensures EncodeQuoting(SenderPar(c)) == Code(c)
  {
    Negotiated(c);
  }

  lemma ProceedToAttributes(c: Setup, y: Sys, slots: seq<Slot>, p: Packet, len: int, fill: Fill)
    requires Holding(c, y, slots, p, len, fill) && y.s.state == S_FILE && Attributed(c)
    ensures Advances(c, y, Proceed(y.s.(slots := slots), p, fill))
  {
    hide GoodSetup;
    hide Adopt;
    hide Announce;
    hide Config;
    hide Opened;
    hide Flowing;
    hide Ending;
    hide Closing;
    hide ForwardLine;
    hide BackwardLine;
    hide Repeatable;
    hide LegalFill;
    hide Decode;
    hide NameArrived;
    hide Complete;
    hide SenderPar;
    hide ReceiverPar;
    hide Offer;
    hide Requested;
    hide AttrField;
    hide Has;
    Sequence(y.cur.sq);
    Negotiated(c);
  }

  /** Without attributes, from the name straight to the data: the first data packet, or the end of an empty file. */
  lemma ProceedToData(c: Setup, y: Sys, slots: seq<Slot>, p: Packet, len: int, fill: Fill)
    requires Holding(c, y, slots, p, len, fill) && y.s.state == S_FILE && !Attributed(c)
    ensures Advances(c, y, Proceed(y.s.(slots := slots), p, fill))
  {
    hide GoodSetup;
    hide Has;
    hide NextFile;
    hide Acknowledges;
    hide Adopt;
    hide Announce;
    hide Config;
    hide Opened;
    hide Described;
    hide Closing;
    hide ForwardLine;
    hide BackwardLine;
    hide Repeatable;
    hide Decode;
    hide NameArrived;
    hide Complete;
    hide SenderPar;
    hide ReceiverPar;
    hide Offer;
    hide Requested;
    hide AttrField;
    hide Sendable;
    Sequence(y.cur.sq);
    Negotiated(c);
    ConfigCode(c);
    hide Code;
    hide EncodeQuoting;
  }

  lemma ProceedName(c: Setup, y: Sys, slots: seq<Slot>, p: Packet, len: int, fill: Fill)
    requires Holding(c, y, slots, p, len, fill) && y.s.state == S_FILE
    ensures Advances(c, y, Proceed(y.s.(slots := slots), p, fill))
  {
    hide Holding;
    hide Advances;
    if Attributed(c) {
      ProceedToAttributes(c, y, slots, p, len, fill);
    } else {
      ProceedToData(c, y, slots, p, len, fill);
    }
  }

  /** From the attributes to the first data packet, or to the end of an empty file. */
  lemma ProceedAttributes(c: Setup, y: Sys, slots: seq<Slot>, p: Packet, len: int, fill: Fill)
    requires Holding(c, y, slots, p, len, fill) && y.s.state == S_ATTR
    ensures Advances(c, y, Proceed(y.s.(slots := slots), p, fill))
  {
    hide GoodSetup;
    hide Has;
    hide NextFile;
    hide Acknowledges;
    hide Adopt;
    hide Announce;
    hide Config;
    hide Opened;
    hide Named;
    hide Closing;
    hide ForwardLine;
    hide BackwardLine;
    hide Repeatable;
    hide Decode;
    hide NameArrived;
    hide AttrsArrived;
    hide Complete;
    hide SenderPar;
    hide ReceiverPar;
    hide Offer;
    hide Requested;
    hide AttrField;
    hide Sendable;
    Sequence(y.cur.sq);
    ConfigCode(c);
    hide Code;
    hide EncodeQuoting;
  }

  /** From a data packet to the next one, or to the end of the file. */
  lemma ProceedData(c: Setup, y: Sys, slots: seq<Slot>, p: Packet, len: int, fill: Fill)
    requires Holding(c, y, slots, p, len, fill) && y.s.state == S_DATA
    ensures Advances(c, y, Proceed(y.s.(slots := slots), p, fill))
  {
    hide GoodSetup;
    hide Has;
    hide NextFile;
    hide Adopt;
    hide Announce;
    hide Config;
    hide Opened;
    hide Described;
    hide Named;
    hide Closing;
    hide ForwardLine;
    hide BackwardLine;
    hide Repeatable;
    hide Decode;
    hide NameArrived;
    hide AttrsArrived;
    hide Complete;
    hide SenderPar;
    hide ReceiverPar;
    hide Offer;
    hide Requested;
    hide AttrField;
    Sequence(y.cur.sq);
    ConfigCode(c);
    hide Code;
    hide EncodeQuoting;
    var bytes := Decode(Code(c), fill.field).value;
    assert y.r.delivered + (bytes + fill.rest) == y.r.delivered + bytes + fill.rest;
    assert y.s.pending == [] ==> y.r.delivered + [] == y.r.delivered;
  }

  lemma ProceedEnd(c: Setup, y: Sys, slots: seq<Slot>, p: Packet, len: int, fill: Fill)
    requires Holding(c, y, slots, p, len, fill) && y.s.state == S_EOF
    ensures Advances(c, y, Proceed(y.s.(slots := slots), p, fill))
  {
    hide GoodSetup;
    hide Adopt;
    hide Announce;
    hide Opened;
    hide Described;
    hide Flowing;
    hide ForwardLine;
    hide BackwardLine;
    hide Repeatable;
    hide Decode;
    hide Complete;
    hide SenderPar;
    hide ReceiverPar;
    hide Offer;
    hide Requested;
    hide Config;
    Sequence(y.cur.sq);
    ConfigCode(c);
  }

  lemma Proceeding(c: Setup, y: Sys, slots: seq<Slot>, p: Packet, len: int, fill: Fill)
    requires Holding(c, y, slots, p, len, fill) && y.s.state != S_EOT
    ensures Advances(c, y, Proceed(y.s.(slots := slots), p, fill))
  {
    hide Advances;
    hide Proceed;
    hide LegalFill;
    match y.s.state {
      case S_INIT => ProceedOpening(c, y, slots, p, len, fill);
      case S_FILE => ProceedName(c, y, slots, p, len, fill);
      case S_ATTR => ProceedAttributes(c, y, slots, p, len, fill);
      case S_DATA => ProceedData(c, y, slots, p, len, fill);
      case S_EOF => ProceedEnd(c, y, slots, p, len, fill);
    }
  }

  // ---- What crosses the lines ----

  /** The S packet and its acknowledgement cross every line as they are. */
  lemma OpeningCrosses(c: Setup)
    requires GoodSetup(c)
    ensures Crosses(true, Opening(c).data) && Crosses(true, Reply(c))
    ensures |Opening(c).data| == |Reply(c)| == 13
  {
    AnnouncementsArePlain(c.ps, c.bs, c.sa, c.pr, c.br, c.ra);
    hide Announce;
    hide Adopt;
  }

  lemma SendableCrosses(q: Quoting, field: seq<byte>)
    requires Sendable(q, field)
    ensures Crosses(q.ebqflg, field)
  {
  }

  lemma AttrFieldCrosses(c: Setup, f: File)
    requires GoodFile(Stripped(c), f)
    ensures Crosses(Stripped(c), AttrField(f)) && |AttrField(f)| < 2 * ATTRLEN
  {
    hide Pow10;
    hide AttrString;
    AttributesCross(Stripped(c), f.binary, |f.content|, f.date);
  }

  /** No packet of the sender is altered by the parity of the receiver. */
  lemma CurrentCrosses(c: Setup, y: Sys)
    requires GoodSetup(c) && Progress(c, y)
    ensures Crosses(Stripped(c), y.cur.data) && |y.cur.data| <= P_PKTLEN - 4
    ensures y.cur.typ == S ==> Crosses(true, y.cur.data)
  {
    hide Decode;
    hide NameArrived;
    hide AttrsArrived;
    hide Complete;
    hide AttrField;
    hide Clear;
    hide Crosses;
    hide ReceiverPar;
    hide SenderPar;
    hide Opening;
    hide Pow10;
    Negotiated(c);
    OpeningCrosses(c);
    match y.s.state {
      case S_INIT =>
        MoreCrosses(Stripped(c), y.cur.data);
      case S_FILE =>
        SendableCrosses(Code(c), y.cur.data);
      case S_ATTR =>
        AttrFieldCrosses(c, c.files[y.s.next - 1]);
      case S_DATA =>
        SendableCrosses(Code(c), y.cur.data);
      case S_EOF =>
        MoreCrosses(Stripped(c), []);
      case S_EOT =>
        MoreCrosses(Stripped(c), []);
    }
  }

  lemma MoreCrosses(parity: bool, s: seq<byte>)
    requires s == [] || Crosses(true, s)
    ensures Crosses(parity, s)
  {
  }

  /** What the receiver sees of the current packet is that packet. */
  lemma CurrentIsSeen(c: Setup, y: Sys)
    requires Inv(c, y) && !y.rOut.Failed?
    ensures Crosses(y.r.par.parity != 0, y.cur.data) && SeenBy(y.r, y.cur) == y.cur
  {
    CurrentCrosses(c, y);
    Negotiated(c);
    OpeningType(c, y);
    hide Progress;
    hide ForwardLine;
    hide BackwardLine;
    hide Repeatable;
    hide Crosses;
    hide Seen;
    hide GoodSetup;
    hide Offer;
    hide ReceiverPar;
    hide SenderPar;
    hide Code;
    if y.s.state == S_INIT {
      MoreCrosses(y.r.par.parity != 0, y.cur.data);
    }
    SeenAsItIs(y.r.par.parity != 0, y.cur.data);
  }

  lemma OpeningType(c: Setup, y: Sys)
    requires Progress(c, y)
    ensures y.s.state == S_INIT <==> y.cur.typ == S
  {
    hide Decode;
    hide NameArrived;
    hide AttrsArrived;
    hide Complete;
    hide AttrField;
  }

  /** An acknowledgement means the same however it is seen. */
  lemma AckIsSeen(c: Setup, cur: Packet, k: KState, p: Packet)
    requires GoodSetup(c) && Acknowledges(c, cur, p)
    ensures Acknowledges(c, cur, SeenBy(k, p))
  {
    hide Reply;
    hide Crosses;
    hide Seen;
    OpeningCrosses(c);
    if cur.typ == S || cur.typ == D {
      MoreCrosses(k.par.parity != 0, p.data);
      SeenAsItIs(k.par.parity != 0, p.data);
    }
  }

  // ---- Every step keeps the invariant ----

  lemma CurrentIsOrdinary(c: Setup, y: Sys)
    requires Inv(c, y)
    ensures y.cur.typ != E && y.cur.typ != N && y.cur.typ != Y
  {
    hide Shape;
    hide ForwardLine;
    hide BackwardLine;
    hide Repeatable;
    CurrentType(c, y);
  }

  /** Who is who, and who finishes first. */
  lemma Roles(c: Setup, y: Sys)
    requires Inv(c, y)
    ensures y.s.what.Sending? && y.r.what.Receiving? && |y.s.slots| == |y.r.slots| == 4
    ensures y.rOut.Done? ==> Ahead(y)
    ensures y.sOut.Done? ==> y.rOut.Done?
  {
    hide Progress;
    hide ForwardLine;
    hide BackwardLine;
    hide Repeatable;
  }

  /** Taking the first packet off a line, and what kind of packet it is. */
  lemma Heads(c: Setup, y: Sys)
    requires Inv(c, y)
    ensures GoodSetup(c) && Numbers(y) && |y.s.slots| == 4 && |y.r.slots| == 4
    ensures y.fwd != [] ==>
              && Inv(c, y.(fwd := y.fwd[1..])) && Carried(y, y.fwd[0])
              && (y.fwd[0] == y.cur ==>
                    forall i :: 0 <= i < |y.fwd[1..]| ==> y.fwd[1..][i].typ == E || y.fwd[1..][i] == y.cur)
    ensures y.back != [] ==>
              && Inv(c, y.(back := y.back[1..])) && Answer(c, y, y.back[0])
              && (y.back[0].typ == Y && y.back[0].sq == y.cur.sq ==>
                    forall i :: 0 <= i < |y.back[1..]| && y.back[1..][i].typ == Y ==> y.back[1..][i].sq == y.cur.sq)
  {
    hide Progress;
    hide Repeatable;
    hide Acknowledges;
    hide SenderPar;
    hide ReceiverPar;
    hide Offer;
    hide Requested;
    Losing(c, y, 0);
    assert y.fwd != [] ==> Drop(y.fwd, 0) == y.fwd[1..];
    assert y.back != [] ==> Drop(y.back, 0) == y.back[1..];
  }

  /** What a call does that does not go forward: it repeats, objects or gives up. */
  predicate SenderStays(y: Sys, res: Res) {
    && res.k == y.s.(s_seq := res.k.s_seq, opkt := res.k.opkt, par := res.k.par, slots := res.k.slots)
    && |res.k.slots| == 4
    && (|| (res.out.Ok? && res.sent == [y.cur] && res.k == y.s.(slots := res.k.slots))
        || (res.out.Failed? && Expected(res.out) && |res.sent| <= 1 && (res.sent != [] ==> res.sent[0].typ == E)))
  }

  lemma SenderStaysSafe(c: Setup, y: Sys, res: Res)
    requires Inv(c, y) && y.sOut.Ok? && SenderStays(y, res)
    ensures Inv(c, AfterSender(y, res))
  {
    hide Inv;
    CurrentIsOrdinary(c, y);
    if res.out.Ok? {
      SenderRepeats(c, y, res.k.slots);
      assert AfterSender(y, res) == y.(s := y.s.(slots := res.k.slots), fwd := y.fwd + [y.cur]);
    } else {
      SenderGivesUp(c, y, res.k, res.sent, res.out.reason);
      assert AfterSender(y, res) == y.(s := res.k, sOut := Failed(res.out.reason), fwd := y.fwd + res.sent);
    }
  }

  predicate ReceiverStays(y: Sys, res: Res) {
    && res.k == y.r.(s_seq := res.k.s_seq, opkt := res.k.opkt, par := res.k.par, slots := res.k.slots)
    && |res.k.slots| == 4
    && (|| (res.out.Ok? && res.k == y.r.(slots := res.k.slots)
            && res.sent == if y.r.opkt.Some? then [y.r.opkt.value] else [])
        || (!res.out.Done? && Expected(res.out) && |res.sent| <= 1
            && (res.sent != [] ==> res.sent[0].typ == N || res.sent[0].typ == E)
            && res.k.opkt == (if res.sent == [] then y.r.opkt else Some(res.sent[0]))
            && (res.out.Ok? ==> res.k.par == y.r.par)))
  }

  lemma ReceiverStaysSafe(c: Setup, y: Sys, res: Res)
    requires Inv(c, y) && y.rOut.Ok? && ReceiverStays(y, res)
    ensures Inv(c, AfterReceiver(y, res))
  {
    hide Inv;
    if res.out.Ok? && res.k == y.r.(slots := res.k.slots)
       && res.sent == if y.r.opkt.Some? then [y.r.opkt.value] else [] {
      ReceiverRepeats(c, y, res.k.slots);
      assert AfterReceiver(y, res) == y.(r := y.r.(slots := res.k.slots), back := y.back + res.sent);
    } else {
      ReceiverObjects(c, y, res.k, res.sent, res.out);
      assert AfterReceiver(y, res) == y.(r := res.k, rOut := res.out, back := y.back + res.sent);
    }
  }

  lemma NoiseIsHarmless(c: Setup, y: Sys, slot: nat, rx: Rx, fill: Fill)
    requires Inv(c, y) && slot < 4 && !rx.Intact?
    ensures y.sOut.Ok? && Wellformed(y.s) ==> SenderStays(y, Run(y.s, slot, rx, fill))
    ensures y.rOut.Ok? && Wellformed(y.r) ==> ReceiverStays(y, Run(y.r, slot, rx, fill))
  {
    hide Progress;
    hide ForwardLine;
    hide BackwardLine;
    hide Repeatable;
    hide SenderPar;
    hide ReceiverPar;
    hide Offer;
    hide Requested;
  }

  /** A packet that is not the one wanted. */
  lemma StrayIsHarmless(c: Setup, y: Sys, slot: nat, p: Packet, len: int, fill: Fill)
    requires Inv(c, y) && slot < 4
    ensures y.sOut.Ok? && Wellformed(y.s) && (p.typ != Y || p.sq != y.s.r_seq) ==>
              SenderStays(y, Run(y.s, slot, Intact(p, len), fill))
    ensures y.rOut.Ok? && Wellformed(y.r) && (p.typ == E || p.sq != y.r.r_seq) ==>
              ReceiverStays(y, Run(y.r, slot, Intact(p, len), fill))
  {
    hide Progress;
    hide ForwardLine;
    hide BackwardLine;
    hide Repeatable;
    hide SenderPar;
    hide ReceiverPar;
    hide Offer;
    hide Requested;
    hide Receive;
    hide Proceed;
    hide Ascii;
  }

  /** The packet at the head of the forward line reaches the receiver. */
  lemma ForwardDelivered(c: Setup, y: Sys, slot: nat, len: int)
    requires Inv(c, y) && y.rOut.Ok? && y.fwd != [] && slot < |y.r.slots| && Wellformed(y.r)
    ensures var p := SeenBy(y.r, y.fwd[0]);
            Inv(c, AfterReceiver(y.(fwd := y.fwd[1..]), Run(y.r, slot, Intact(p, len), Fill([], []))))
  {
    hide Inv;
    hide Run;
    hide Receive;
    hide Progress;
    hide Shape;
    hide ReceiverStays;
    hide Acknowledges;
    hide Seen;
    Heads(c, y);
    var p := SeenBy(y.r, y.fwd[0]);
    var y1 := y.(fwd := y.fwd[1..]);
    var res := Run(y.r, slot, Intact(p, len), Fill([], []));
    if p.typ == E || p.sq != y.r.r_seq {
      StrayIsHarmless(c, y1, slot, p, len, Fill([], []));
      ReceiverStaysSafe(c, y1, res);
    } else {
      WantedIsCurrent(y, y.fwd[0]);
      CurrentIsSeen(c, y);
      var slots := y.r.slots[slot := Slot(len, 0)];
      var slots' := y.r.slots[slot := Slot(0, 0)];
      Accepting(c, y1, slots, slots');
      var acc := Receive(y.r.(slots := slots), p);
      ReceiveKeepsSlots(y.r.(slots := slots), p);
      CurrentTaken(c, y1, slot, len);
      ReceiverAccepts(c, y1, acc.k.(slots := slots'), acc.sent[0], acc.out);
      assert acc.sent == [acc.sent[0]];
    }
  }

  /** Of the packets that can be under way, only the current one has the number the receiver wants. */
  lemma WantedIsCurrent(y: Sys, p: Packet)
    requires Numbers(y) && Carried(y, p) && p.typ != E && p.sq == y.r.r_seq
    ensures p == y.cur && !Ahead(y)
  {
    Sequence(y.cur.sq);
  }

  /** What K_RUN does with the current packet is what `Receive` says, with the slot free again. */
  lemma CurrentTaken(c: Setup, y: Sys, slot: nat, len: int)
    requires Inv(c, y) && y.rOut.Ok? && slot < 4 && Wellformed(y.r) && !Ahead(y)
    requires var acc := Receive(y.r.(slots := y.r.slots[slot := Slot(len, 0)]), y.cur);
             !acc.out.Failed? && acc.k.slots == y.r.slots[slot := Slot(len, 0)]
    ensures var acc := Receive(y.r.(slots := y.r.slots[slot := Slot(len, 0)]), y.cur);
            Run(y.r, slot, Intact(y.cur, len), Fill([], []))
            == acc.(k := acc.k.(slots := y.r.slots[slot := Slot(0, 0)]))
  {
    hide Receive;
    hide Progress;
    hide ForwardLine;
    hide BackwardLine;
    hide Repeatable;
    hide SenderPar;
    hide ReceiverPar;
    hide GoodSetup;
    hide WrongNumber;
    CurrentType(c, y);
    var sl := y.r.slots;
    assert sl[slot := Slot(len, sl[slot].rtr)][slot := Slot(len, 0)] == sl[slot := Slot(len, 0)];
    assert sl[slot := Slot(len, 0)][slot := Slot(0, 0)] == sl[slot := Slot(0, 0)];
  }

  /** The answer at the head of the backward line reaches the sender. */
  lemma BackwardDelivered(c: Setup, y: Sys, slot: nat, len: int, fill: Fill)
    requires Inv(c, y) && y.sOut.Ok? && y.back != [] && slot < |y.s.slots| && Wellformed(y.s)
    requires LegalFill(y.s, Intact(SeenBy(y.s, y.back[0]), len), fill)
    ensures var p := SeenBy(y.s, y.back[0]);
            Inv(c, AfterSender(y.(back := y.back[1..]), Run(y.s, slot, Intact(p, len), fill)))
  {
    hide Inv;
    hide Run;
    hide Proceed;
    hide Progress;
    hide Shape;
    hide SenderStays;
    hide Acknowledges;
    hide LegalFill;
    hide Seen;
    Heads(c, y);
    var p := SeenBy(y.s, y.back[0]);
    var y1 := y.(back := y.back[1..]);
    var res := Run(y.s, slot, Intact(p, len), fill);
    if p.typ != Y || p.sq != y.s.r_seq {
      StrayIsHarmless(c, y1, slot, p, len, fill);
      SenderStaysSafe(c, y1, res);
    } else {
      Sequence(y.cur.sq);
      var slots := y.s.slots[slot := Slot(0, 0)];
      AckIsSeen(c, y.cur, y.s, y.back[0]);
      AckTaken(c, y1, slot, p, len, fill);
      if y.s.state == S_EOT {
        SenderFinishes(c, y1, slots);
        ProceedAtEnd(y.s.(slots := slots), p, fill);
      } else {
        Proceeding(c, y1, slots, p, len, fill);
        SenderAdvances(c, y1, res.k, res.sent[0]);
        assert res.sent == [res.sent[0]];
      }
    }
  }

  lemma ProceedAtEnd(k: KState, p: Packet, fill: Fill)
    requires k.state == S_EOT
    ensures Proceed(k, p, fill) == Res(k, [], Done)
  {
  }

  lemma DataType(c: Setup, y: Sys)
    requires Progress(c, y)
    ensures y.s.state == S_DATA ==> y.cur.typ == D
  {
    hide Decode;
    hide NameArrived;
    hide AttrsArrived;
    hide Complete;
    hide AttrField;
    hide Sendable;
  }

  lemma AckTaken(c: Setup, y: Sys, slot: nat, p: Packet, len: int, fill: Fill)
    requires Inv(c, y) && y.sOut.Ok? && slot < 4 && Wellformed(y.s)
    requires p.typ == Y && p.sq == y.cur.sq && Acknowledges(c, y.cur, p)
    ensures Run(y.s, slot, Intact(p, len), fill) == Proceed(y.s.(slots := y.s.slots[slot := Slot(0, 0)]), p, fill)
  {
    hide Proceed;
    hide LegalFill;
    hide GoodSetup;
    hide Progress;
    DataType(c, y);
    hide ForwardLine;
    hide BackwardLine;
    hide Repeatable;
    hide SenderPar;
    hide ReceiverPar;
    var sl := y.s.slots;
    assert sl[slot := Slot(len, sl[slot].rtr)][slot := Slot(len, 0)][slot := Slot(0, 0)] == sl[slot := Slot(0, 0)];
  }

  lemma SenderFinishes(c: Setup, y: Sys, slots: seq<Slot>)
    requires Inv(c, y) && y.sOut.Ok? && y.s.state == S_EOT && Ahead(y) && |slots| == 4
    ensures Inv(c, AfterSender(y, Res(y.s.(slots := slots), [], Done)))
  {
    hide Acknowledges;
    hide Progress;
    hide GoodSetup;
    hide SenderPar;
    hide ReceiverPar;
    hide Offer;
    hide Requested;
    var y' := AfterSender(y, Res(y.s.(slots := slots), [], Done));
    assert y'.fwd == y.fwd;
    SameState(c, y, y');
    EndedWhenAhead(c, y);
    assert Shape(c, y');
    hide Shape;
  }

  lemma EndedWhenAhead(c: Setup, y: Sys)
    requires Progress(c, y) && y.s.state == S_EOT && Ahead(y)
    ensures y.rOut.Done?
  {
  }

  // ---- Every run ----

  lemma StartIsGood(c: Setup)
    requires GoodSetup(c)
    ensures Inv(c, Start(c))
  {
    hide Announce;
    hide Offer;
    hide Adopt;
    hide SenderPar;
    hide ReceiverPar;
  }

  lemma StepKeepsInvariant(c: Setup, y: Sys, a: Action)
    requires Inv(c, y) && Enabled(c, y, a)
    ensures Inv(c, Step(c, y, a))
  {
    hide Inv;
    hide Run;
    hide LegalFill;
    hide SenderStays;
    hide ReceiverStays;
    hide Wellformed;
    Heads(c, y);
    match a {
      case LoseForward(i) => Losing(c, y, i);
      case LoseBackward(i) => Losing(c, y, i);
      case DeliverForward(slot, len) => ForwardDelivered(c, y, slot, len);
      case DeliverBackward(slot, len, fill) => BackwardDelivered(c, y, slot, len, fill);
      case RefuseForward(slot, len) =>
        var y', rx := y.(fwd := y.fwd[1..]), Damaged(y.fwd[0].typ, false, len);
        NoiseIsHarmless(c, y', slot, rx, Fill([], []));
        ReceiverStaysSafe(c, y', Run(y.r, slot, rx, Fill([], [])));
      case RefuseBackward(slot, len) =>
        var y', rx := y.(back := y.back[1..]), Damaged(y.back[0].typ, false, len);
        NoiseIsHarmless(c, y', slot, rx, Fill([], []));
        SenderStaysSafe(c, y', Run(y.s, slot, rx, Fill([], [])));
      case NoiseAtReceiver(slot, rx) =>
        NoiseIsHarmless(c, y, slot, rx, Fill([], []));
        ReceiverStaysSafe(c, y, Run(y.r, slot, rx, Fill([], [])));
      case NoiseAtSender(slot, rx) =>
        NoiseIsHarmless(c, y, slot, rx, Fill([], []));
        SenderStaysSafe(c, y, Run(y.s, slot, rx, Fill([], [])));
    }
  }

  /** The invariant holds in every state of every run. */
  lemma {:induction false} AlwaysInvariant(c: Setup, ys: seq<Sys>, acts: seq<Action>, i: nat)
    requires GoodSetup(c) && Behaviour(c, ys, acts) && i < |ys|
    ensures Inv(c, ys[i])
    decreases i
  {
    hide Inv;
    hide Start;
    hide Step;
    if i == 0 {
      StartIsGood(c);
    } else {
      AlwaysInvariant(c, ys, acts, i - 1);
      StepKeepsInvariant(c, ys[i - 1], acts[i - 1]);
    }
  }

  /** What has been received is a prefix of what is being sent: whole files, then the start of the next. */
  predicate Prefix(c: Setup, r: KState) {
    && Complete(c, r.log, |r.log|)
    && (r.state == R_DATA ==> |r.log| < |c.files| && r.delivered <= c.files[|r.log|].content)
  }

  lemma InvariantMeansPrefix(c: Setup, y: Sys)
    requires Inv(c, y)
    ensures Prefix(c, y.r) && Wellformed(y.s) && Wellformed(y.r)
  {
    hide Decode;
    hide NameArrived;
    hide AttrsArrived;
    hide ForwardLine;
    hide BackwardLine;
    hide Repeatable;
    hide SenderPar;
    hide ReceiverPar;
    hide Offer;
    hide Requested;
    hide AttrField;
    hide GoodSetup;
  }

  /**
   End-to-end safety. In every run, whatever the two lines lose and however often
   either side asks again: the receiver holds whole files of the list, in order,
   with their names and attributes, followed by an exact prefix of the next one.
   */
  lemma ReceivedIsPrefix(c: Setup, ys: seq<Sys>, acts: seq<Action>, i: nat)
    requires GoodSetup(c) && Behaviour(c, ys, acts) && i < |ys|
    ensures Prefix(c, ys[i].r)
  {
    AlwaysInvariant(c, ys, acts, i);
    InvariantMeansPrefix(c, ys[i]);
  }

  /** When either side reports success, every file has arrived, and the receiver knows it first. */
  lemma SuccessIsComplete(c: Setup, ys: seq<Sys>, acts: seq<Action>, i: nat)
    requires GoodSetup(c) && Behaviour(c, ys, acts) && i < |ys|
    ensures ys[i].rOut.Done? ==> Complete(c, ys[i].r.log, |c.files|)
    ensures ys[i].sOut.Done? ==> ys[i].rOut.Done?
  {
    hide Decode;
    hide Complete;
    hide Sendable;
    hide NameArrived;
    hide AttrsArrived;
    hide AttrField;
    hide ForwardLine;
    hide BackwardLine;
    hide Repeatable;
    hide SenderPar;
    hide ReceiverPar;
    hide Offer;
    hide GoodSetup;
    hide Start;
    hide Step;
    AlwaysInvariant(c, ys, acts, i);
  }

  /**
   Lockstep. The packet types the sender issues are always legal in the state the
   receiver is in, and every field it sends can be decoded: neither side ever
   ends with "Unexpected packet type".
   */
  lemma NeverUnexpected(c: Setup, ys: seq<Sys>, acts: seq<Action>, i: nat)
    requires GoodSetup(c) && Behaviour(c, ys, acts) && i < |ys|
    ensures ys[i].sOut != Failed(UnexpectedType) && ys[i].rOut != Failed(UnexpectedType)
    ensures ys[i].sOut != Failed(Malformed) && ys[i].rOut != Failed(Malformed)
    ensures Wellformed(ys[i].s) && Wellformed(ys[i].r)
  {
    AlwaysInvariant(c, ys, acts, i);
    InvariantMeansPrefix(c, ys[i]);
  }

  /**
   A file is closed at the receiver only when all of it is there: whenever the
   list of received files grows, it grows by the next file, whole.
   */
  lemma ClosedFileIsWhole(c: Setup, ys: seq<Sys>, acts: seq<Action>, i: nat)
    requires GoodSetup(c) && Behaviour(c, ys, acts) && i + 1 < |ys|
    requires ys[i + 1].r.log != ys[i].r.log
    ensures |ys[i + 1].r.log| == |ys[i].r.log| + 1 <= |c.files|
    ensures var n := |ys[i].r.log|;
            && ys[i + 1].r.log[..n] == ys[i].r.log
            && Arrived(c, c.files[n], ys[i + 1].r.log[n])
  {
    AlwaysInvariant(c, ys, acts, i);
    InvariantMeansPrefix(c, ys[i]);
    AlwaysInvariant(c, ys, acts, i + 1);
    InvariantMeansPrefix(c, ys[i + 1]);
    assert ys[i].r.what.Receiving?;
    hide Inv;
    hide Arrived;
    assert ys[i + 1] == Step(c, ys[i], acts[i]);
    LogGrowsByOne(ys[i].r, acts[i], c, ys[i]);
  }

  lemma LogGrowsByOne(r: KState, a: Action, c: Setup, y: Sys)
    requires Enabled(c, y, a) && r == y.r && r.what.Receiving?
    ensures var log := Step(c, y, a).r.log;
            log == r.log || (|log| == |r.log| + 1 && log[..|r.log|] == r.log)
  {
    hide Run;
    hide LegalFill;
    match a {
      case DeliverForward(slot, len) => RunGrowsLog(r, slot, Intact(SeenBy(r, y.fwd[0]), len));
      case RefuseForward(slot, len) => RunGrowsLog(r, slot, Damaged(y.fwd[0].typ, false, len));
      case NoiseAtReceiver(slot, rx) => RunGrowsLog(r, slot, rx);
      case _ =>
    }
  }

  lemma RunGrowsLog(r: KState, slot: nat, rx: Rx)
    requires slot < |r.slots| && Wellformed(r) && r.what.Receiving?
    ensures var log := Run(r, slot, rx, Fill([], [])).k.log;
            log == r.log || (|log| == |r.log| + 1 && log[..|r.log|] == r.log)
  {
    hide Receive;
    hide Ascii;
    if rx.Intact? {
      ReceiveGrowsLog(r.(slots := r.slots[slot := Slot(rx.len, 0)]), rx.p);
      var sl := r.slots;
      assert sl[slot := Slot(rx.len, sl[slot].rtr)][slot := Slot(rx.len, 0)] == sl[slot := Slot(rx.len, 0)];
    }
  }

  lemma ReceiveGrowsLog(k: KState, p: Packet)
    ensures var log := Receive(k, p).k.log;
            log == k.log || (|log| == |k.log| + 1 && log[..|k.log|] == k.log)
  {
    hide Decode;
    hide Adopt;
    hide Announce;
    hide ReadAttrs;
    hide Ascii;
    assert forall e: Received :: |k.log + [e]| == |k.log| + 1 && (k.log + [e])[..|k.log|] == k.log;
  }
}
