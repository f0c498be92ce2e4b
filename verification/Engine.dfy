/**
 The protocol engine: what one call of kermit() with K_RUN does to the control
 structure, for a sender and for a receiver, as a function of the packet that
 came in. Data fields the sender cuts from its file enter as a parameter, since
 getpkt is free to choose where to cut.
 */
module Engine {
  import opened Bytes
  import opened Codec
  import opened SendCodec
  import opened Negotiation
  import opened Attributes

  // Packet types
  const S: byte := 83
  const F: byte := 70
  const A: byte := 65
  const D: byte := 68
  const Z: byte := 90
  const B: byte := 66
  const Y: byte := 89
  const N: byte := 78
  const E: byte := 69
  const X: byte := 88

  datatype Packet = Packet(sq: int, typ: byte, data: seq<byte>)

  /** What reading a packet produced; `len` is the value of the length field. */
  datatype Rx =
    | Short(len: int)                                // fewer than four bytes
    | Damaged(typ: byte, inHeader: bool, len: int)   // a check failed
    | Intact(p: Packet, len: int)

  datatype Role = Sending | Receiving
  datatype State = R_WAIT | R_FILE | R_ATTR | R_DATA | S_INIT | S_FILE | S_ATTR | S_DATA | S_EOF | S_EOT
  datatype Reason = PeerError | TooManyRetries | UnexpectedType | Malformed
  datatype Outcome = Ok | Done | Failed(reason: Reason)

  /** A file to send, as the file system describes it. */
  datatype File = File(name: seq<byte>, content: seq<byte>, binary: bool, date: seq<byte>)

  /** A file that has been received and closed. */
  datatype Received = Received(name: seq<byte>, content: seq<byte>, attrs: Attrs)

  /** A receive slot: its length is below one when it is free. */
  datatype Slot = Slot(len: int, rtr: nat)

  datatype KState = KState(
    what: Role, state: State, s_seq: int, r_seq: int, opkt: Option<Packet>, par: Params, slots: seq<Slot>,
    files: seq<File>, next: nat, pending: seq<byte>,
    filename: seq<byte>, attrs: Attrs, delivered: seq<byte>, log: seq<Received>)

  datatype Res = Res(k: KState, sent: seq<Packet>, out: Outcome)

  /** What getpkt returns when it is called: a data field, and what is still to be sent after it. */
  datatype Fill = Fill(field: seq<byte>, rest: seq<byte>)

  /** What the program reads when a packet reaches it undamaged: with parity in use the data lose their eighth bits. */
  function SeenBy(k: KState, p: Packet): Packet {
    p.(data := Seen(k.par.parity != 0, p.data))
  }

  function Ascii(s: string): seq<byte>
    requires forall i :: 0 <= i < |s| ==> s[i] as int < 128
  {
    seq<byte>(|s|, i requires 0 <= i < |s| => s[i] as int)
  }

  function Prev(sq: int): int {
    if sq - 1 < 0 then 63 else sq - 1
  }

  function Succ(sq: int): int {
    (sq + 1) % 64
  }

  // ---- Building blocks ----

  function Free(k: KState, slot: nat): KState
    requires slot < |k.slots|
  {
    k.(slots := k.slots[slot := k.slots[slot].(len := 0)])
  }

  function Retried(k: KState, slot: nat): KState
    requires slot < |k.slots|
  {
    k.(slots := k.slots[slot := k.slots[slot].(rtr := k.slots[slot].rtr + 1)])
  }

  function Exhausted(k: KState, slot: nat): bool
    requires slot < |k.slots|
  {
    k.slots[slot].rtr > k.par.retry
  }

  /** spkt: the packet goes out and is kept for retransmission. */
  function Spkt(k: KState, sq: int, typ: byte, data: seq<byte>): Res {
    var p := Packet(sq, typ, data);
    Res(k.(s_seq := sq, opkt := Some(p)), [p], Ok)
  }

  function Nak(k: KState, slot: nat): Res
    requires slot < |k.slots|
  {
    var sent := Spkt(k, k.r_seq, N, []);
    Res(Retried(sent.k, slot), sent.sent, if Exhausted(k, slot) then Failed(TooManyRetries) else Ok)
  }

  function Resend(k: KState): Res {
    match k.opkt
    case None => Res(k, [], Ok)
    case Some(p) => Res(k, [p], Ok)
  }

  /** A negative answer: the receiver asks again, the sender repeats itself. */
  function Refuse(k: KState, slot: nat): Res
    requires slot < |k.slots|
  {
    if k.what.Receiving? then Nak(k, slot) else Resend(k)
  }

  function Ack(k: KState, sq: int, data: seq<byte>): Res {
    var sent := Spkt(k, sq, Y, data);
    sent.(k := sent.k.(r_seq := Succ(k.r_seq)))
  }

  /** An E packet, always with a type-1 check, and the end of the transfer. */
  function Abort(k: KState, reason: Reason, message: seq<byte>): Res {
    var sent := Spkt(k.(par := k.par.(bct := 1)), 0, E, message);
    sent.(out := Failed(reason))
  }

  function Unexpected(k: KState): Res {
    Abort(k, UnexpectedType, Ascii("Unexpected packet type"))
  }

  // ---- The receiving states ----

  function DecodeField(k: KState, data: seq<byte>): Option<seq<byte>> {
    Decode(DecodeQuoting(k.par), data)
  }

  /** Closing a file: one whose Z packet says D is incomplete and is removed. */
  function Closed(k: KState, data: seq<byte>, content: seq<byte>): KState {
    k.(state := R_FILE,
       log := if data != [] && data[0] == D then k.log else k.log + [Received(k.filename, content, k.attrs)])
  }

  /** What the receiver does with a packet that has the sequence number it wants. */
  function Receive(k: KState, p: Packet): Res {
    match k.state
    case R_WAIT =>
      if p.typ == S then
        var adopted := Adopt(k.par, p.data);
        var acked := Ack(k.(par := Requested(adopted)), 0, Announce(adopted));
        acked.(k := acked.k.(state := R_FILE))
      else Unexpected(k)
    case R_FILE =>
      if p.typ == F then
        match DecodeField(k, p.data)
        case None => Res(k, [], Failed(Malformed))
        case Some(name) => Ack(k.(filename := name, state := R_ATTR, attrs := NO_ATTRS), k.r_seq, name)
      else if p.typ == B then Ack(k, k.r_seq, []).(out := Done)
      else Unexpected(k)
    case R_ATTR =>
      if p.typ == A then
        match ReadAttrs(p.data, NO_ATTRS)
        case None => Res(k, [], Failed(Malformed))
        case Some(attrs) => Ack(k.(attrs := attrs), k.r_seq, [Y])
      else if p.typ == D then
        match DecodeField(k, p.data)
        case None => Res(k, [], Failed(Malformed))
        case Some(bytes) => Ack(k.(state := R_DATA, delivered := bytes), k.r_seq, [])
      else if p.typ == Z then Ack(Closed(k.(delivered := []), p.data, []), k.r_seq, [])
      else Unexpected(k)
    case R_DATA =>
      if p.typ == D then
        match DecodeField(k, p.data)
        case None => Res(k, [], Failed(Malformed))
        case Some(bytes) => Ack(k.(delivered := k.delivered + bytes), k.r_seq, [])
      else if p.typ == Z then Ack(Closed(k, p.data, k.delivered), k.r_seq, [])
      else Unexpected(k)
    case _ => Unexpected(k)
  }

  lemma ReceiveKeepsSlots(k: KState, p: Packet)
    ensures Receive(k, p).k.slots == k.slots
  {
    hide Ascii;
  }

  // ---- The sending states ----

  /** Sends with the next sequence number, goes to `state` and waits for the answer. */
  function Issue(k: KState, typ: byte, data: seq<byte>, state: State): Res {
    var sent := Spkt(k, Succ(k.s_seq), typ, data);
    sent.(k := sent.k.(state := state, r_seq := Succ(k.s_seq)))
  }

  /** The next data packet, or Z when there is no more data. */
  function SendData(k: KState, fill: Fill): Res {
    if fill.field == [] then Issue(k, Z, [], S_EOF)
    else Issue(k.(pending := fill.rest), D, fill.field, S_DATA)
  }

  function CurrentFile(k: KState): File
    requires 1 <= k.next <= |k.files|
  {
    k.files[k.next - 1]
  }

  /** The attributes of the file being sent. */
  function AttrField(f: File): seq<byte> {
    AttrString(f.binary, |f.content|, f.date)
  }

  /** The next file of the list, or the end of the transaction. */
  function NextFile(k: KState, fill: Fill): Res {
    if k.next < |k.files| then
      Issue(k.(next := k.next + 1, pending := k.files[k.next].content), F, fill.field, S_FILE)
    else Issue(k, B, [], S_EOT)
  }

  /** The peer has asked for the current file, or the whole group, to be dropped. */
  function Cancelled(k: KState, p: Packet): bool {
    k.state == S_DATA && p.data != [] && (p.data[0] == X || p.data[0] == Z)
  }

  function Cancel(k: KState, p: Packet): Res
    requires p.data != []
  {
    Issue(k.(next := if p.data[0] == Z && k.next < |k.files| then |k.files| else k.next), Z, [], S_EOF)
  }

  /** What the sender does with the acknowledgement it waits for. */
  function Proceed(k: KState, p: Packet, fill: Fill): Res
    requires k.state == S_FILE && Has(k.par.capas, CAP_AT) ==> 1 <= k.next <= |k.files|
  {
    match k.state
    case S_INIT => NextFile(k.(par := Adopt(k.par, p.data)), fill)
    case S_EOF => NextFile(k, fill)
    case S_FILE =>
      if Has(k.par.capas, CAP_AT) then Issue(k, A, AttrField(CurrentFile(k)), S_ATTR)
      else SendData(k, fill)
    case S_ATTR => SendData(k, fill)
    case S_DATA => SendData(k, fill)
    case S_EOT => Res(k, [], Done)
    case _ => Unexpected(k)
  }

  // ---- One call of kermit() with K_RUN ----

  predicate Wellformed(k: KState) {
    k.what.Sending? && k.state == S_FILE ==> 1 <= k.next <= |k.files|
  }

  /** An intact packet whose sequence number is not the one wanted. */
  function WrongNumber(k: KState, slot: nat, p: Packet): Res
    requires slot < |k.slots|
  {
    var k := Free(k, slot);
    if p.sq == Prev(k.r_seq) then
      if Exhausted(k, slot) then Abort(Retried(k, slot), TooManyRetries, Ascii("Too many retries"))
      else Resend(Retried(k, slot))
    else Refuse(k, slot)
  }

  /** The receiver's part: its slot is free again unless the protocol switch gives up in the middle of a file. */
  function TakePacket(k: KState, slot: nat, p: Packet): Res
    requires slot < |k.slots|
  {
    var r := Receive(k, p);
    if r.out.Failed? && k.state != R_WAIT && k.state != R_FILE then r else r.(k := Free(r.k, slot))
  }

  /** The sender's part. */
  function TakeAnswer(k: KState, slot: nat, p: Packet, fill: Fill): Res
    requires slot < |k.slots| && Wellformed(k) && k.what.Sending?
  {
    if p.typ != Y then Resend(Free(k, slot))
    else if Cancelled(k, p) then Cancel(k, p)
    else Proceed(Free(k, slot), p, fill)
  }

  /** An intact packet with the sequence number wanted. */
  function RightNumber(k: KState, slot: nat, p: Packet, fill: Fill): Res
    requires slot < |k.slots| && Wellformed(k)
  {
    var k := k.(slots := k.slots[slot := k.slots[slot].(rtr := 0)]);
    if k.what.Receiving? then TakePacket(k, slot, p) else TakeAnswer(k, slot, p, fill)
  }

  function Run(k: KState, slot: nat, rx: Rx, fill: Fill): Res
    requires slot < |k.slots| && Wellformed(k)
  {
    var k := k.(slots := k.slots[slot := k.slots[slot].(len := rx.len)]);
    match rx
    case Short(_) => Refuse(k, slot)
    case Damaged(typ, inHeader, _) =>
      if k.what.Receiving? && (typ == N || typ == Y) then Res(Free(k, slot), [], Ok)
      else
        var r := Refuse(Free(k, slot), slot);
        if inHeader then r else r.(out := Ok)
    case Intact(p, _) =>
      if k.what.Receiving? && (p.typ == N || p.typ == Y) then Res(Free(k, slot), [], Ok)
      else if p.typ == E then Res(k, [], Failed(PeerError))
      else if p.sq != k.r_seq then WrongNumber(k, slot, p)
      else RightNumber(k, slot, p, fill)
  }

  /** The acknowledgement a sender waits for, and not a request to stop: the case in which a field is needed. */
  predicate Awaited(k: KState, rx: Rx) {
    k.what.Sending? && rx.Intact? && rx.p.typ == Y && rx.p.sq == k.r_seq && !Cancelled(k, rx.p)
  }

  /** What getpkt promises about the field it returns, for the calls K_RUN makes. */
  predicate LegalFill(k: KState, rx: Rx, fill: Fill) {
    Awaited(k, rx) ==>
      if k.state == S_INIT || k.state == S_EOF then
        var par := if k.state == S_INIT then Adopt(k.par, rx.p.data) else k.par;
        k.next < |k.files| ==> NameField(Config(par), k.files[k.next].name, fill.field)
      else if k.state == S_ATTR || k.state == S_DATA || (k.state == S_FILE && !Has(k.par.capas, CAP_AT)) then
        DataField(EncodeQuoting(k.par), k.pending, fill)
      else true
  }

  /** Fit for the channel, and short enough for the longest packet. */
  predicate Sendable(q: Quoting, field: seq<byte>) {
    Clear(q, field) && |field| <= P_PKTLEN - 4
  }

  /** A data field for the next part of what is pending. */
  predicate DataField(q: Quoting, pending: seq<byte>, fill: Fill) {
    && Sendable(q, fill.field)
    && Decode(q, fill.field).Some?
    && Decode(q, fill.field).value + fill.rest == pending
    && (fill.field == [] <==> pending == [])
  }

  /** Which fields are legal, and what an acknowledgement means, does not depend on the slots. */
  lemma SlotsDoNotMatter(k: KState, slots: seq<Slot>, p: Packet, len: int, fill: Fill)
    ensures LegalFill(k.(slots := slots), Intact(p, len), fill) == LegalFill(k, Intact(p, len), fill)
    ensures Wellformed(k.(slots := slots)) == Wellformed(k) && Cancelled(k.(slots := slots), p) == Cancelled(k, p)
  {
    hide DataField;
    hide NameField;
    hide Adopt;
    hide Has;
  }

  /** The fields of successive calls of getpkt, from the start of a file until nothing is left. */
  predicate Cuts(q: Quoting, pending: seq<byte>, fills: seq<Fill>)
    decreases |fills|
  {
    if fills == [] then pending == []
    else DataField(q, pending, fills[0]) && fills[0].field != [] && Cuts(q, fills[0].rest, fills[1..])
  }

  function Fields(fills: seq<Fill>): (fields: seq<seq<byte>>)
    ensures |fields| == |fills|
  {
    if fills == [] then [] else [fills[0].field] + Fields(fills[1..])
  }

  /**
   The fields of a file, each decoded on its own and put together, are the file;
   there are no more of them than it has bytes.
   */
  lemma {:induction false} PacketisedRoundTrip(q: Quoting, pending: seq<byte>, fills: seq<Fill>)
    requires Cuts(q, pending, fills)
    ensures DecodeAll(q, Fields(fills)) == Some(pending)
    ensures |fills| <= |pending|
    decreases |fills|
  {
    if fills != [] {
      hide Decode;
      EmptyField(q, fills[0].field);
      PacketisedRoundTrip(q, fills[0].rest, fills[1..]);
      assert Fields(fills)[1..] == Fields(fills[1..]);
    }
  }

  /** A data field for a file name: the whole name unless it may not fit one packet. */
  predicate NameField(cfg: SendConfig, name: seq<byte>, field: seq<byte>) {
    && Sendable(cfg.q, field)
    && Decode(cfg.q, field).Some?
    && NameMatches(cfg, name, Decode(cfg.q, field).value)
  }

  predicate NameMatches(cfg: SendConfig, name: seq<byte>, received: seq<byte>) {
    && received <= name
    && (3 * |name| < cfg.s_maxlen - cfg.bct - 3 ==> received == name)
  }

  /**
   What the C code takes for granted about a packet it acts on: a string that,
   if it is accepted, does not stop inside a prefix group, and negotiated limits
   that leave room for data.
   */
  predicate Fit(k: KState, slot: nat, rx: Rx)
    requires slot < |k.slots| && Wellformed(k)
  {
    && (rx.Intact? ==> 0 !in rx.p.data)
    && (k.what.Receiving? ==> Run(k, slot, rx, Fill([], [])).out != Failed(Malformed))
    && (Awaited(k, rx) ==> Config(if k.state == S_INIT then Adopt(k.par, rx.p.data) else k.par).Usable())
  }

  // ---- Starting ----

  function Idle(parity: int, bct: int): KState {
    KState(Receiving, R_WAIT, 0, 0, None, Initial(parity, bct), [Slot(0, 0), Slot(0, 0), Slot(0, 0), Slot(0, 0)],
           [], 0, [], [], NO_ATTRS, [], [])
  }

  /** K_SEND: announces the parameters in an S packet. */
  function StartSending(k: KState): Res {
    var sent := Spkt(k.(par := Requested(k.par)), 0, S, Announce(k.par));
    sent.(k := sent.k.(state := S_INIT, what := Sending))
  }
}
