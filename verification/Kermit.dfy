/**
 The control structure itself: the object kermit() works on, with its encoder,
 decoder and packet slots. Every call of K_RUN is proved to do what `Engine.Run`
 says, with data fields that getpkt has really cut from the file.
 */
module KermitObject {
  import opened Bytes
  import opened Codec
  import opened FileIo
  import opened SendCodec
  import opened RecvCodec
  import opened Negotiation
  import opened Attributes
  import opened Engine
  import opened Slots

  class Kermit {
    const enc: Encoder
    const dec: Decoder
    const neg: Negotiator
    var what: Role
    var state: State
    var s_seq: int
    var r_seq: int
    var opkt: Option<Packet>     // opktbuf: the last packet sent
    var ipktinfo: seq<Slot>
    var filelist: seq<File>
    var next: nat                // where the filelist pointer points
    var filename: seq<byte>
    var attrs: Attrs
    var log: seq<Received>       // files received and closed
    var line: seq<Packet>        // everything handed to txd so far

    ghost function Code(): Quoting
      reads this, neg
    {
      EncodeQuoting(neg.p)
    }

    ghost predicate Valid()
      reads this, neg, enc, enc.source, enc.source.zinbuf, enc.xdata, enc.s_remain, dec, dec.obuf
    {
      && enc.Valid(Code()) && !enc.fromString
      && dec.Valid()
      && dec.obuf != enc.xdata && dec.obuf != enc.s_remain && dec.obuf != enc.source.zinbuf
      && neg.p.capas == Both(neg.p.capas, neg.p.capas)
      && |ipktinfo| == 4
      && (what.Receiving? || state == S_INIT ==> enc.s_first == 1)
      && (what.Sending? && state == S_FILE ==> 1 <= next <= |filelist|)
      && (forall i :: 0 <= i < |filelist| ==> filelist[i].name != [] && 0 !in filelist[i].name)
    }

    /** The abstract state, as the protocol engine sees it. */
    ghost function View(): KState
      reads this, neg, enc, enc.source, enc.source.zinbuf, enc.xdata, enc.s_remain, dec, dec.obuf
      requires Valid()
    {
      KState(what, state, s_seq, r_seq, opkt, neg.p, ipktinfo, filelist, next, enc.Pending(Code()),
             filename, attrs, dec.Delivered(), log)
    }

    /** K_INIT. */
    constructor (parity: int, bct: int)
      ensures Valid() && View() == Idle(parity, bct) && line == []
      ensures fresh(enc) && fresh(enc.source) && fresh(enc.source.zinbuf) && fresh(enc.xdata) && fresh(enc.s_remain)
      ensures fresh(dec) && fresh(dec.obuf) && fresh(neg)
    {
      hide Encoder.Valid;
      hide Encoder.Pending;
      enc := new Encoder();
      dec := new Decoder();
      neg := new Negotiator(parity, bct);
      what, state, s_seq, r_seq, opkt := Receiving, R_WAIT, 0, 0, None;
      ipktinfo := [Slot(0, 0), Slot(0, 0), Slot(0, 0), Slot(0, 0)];
      filelist, next, filename, attrs, log, line := [], 0, [], NO_ATTRS, [], [];
    }

    /** K_SEND: the S packet that opens a transfer of `files`. */
    method StartSending(files: seq<File>)
      requires Valid() && what.Receiving? && state == R_WAIT && next == 0
      requires forall i :: 0 <= i < |files| ==> files[i].name != [] && 0 !in files[i].name
      modifies this, neg
      ensures Valid()
      ensures var res := Engine.StartSending(old(View()).(files := files));
              View() == res.k && line == old(line) + res.sent
    {
      hide Encoder.Valid;
      hide Encoder.Pending;
      hide Decoder.Valid;
      hide Decoder.Delivered;
      hide Announce;
      hide Requested;
      hide Both;
      RequestKeepsCapas(neg.p);
      filelist := files;
      var d, _ := neg.Rpar();
      enc.AnyCode(old(Code()), Code());
      Spkt(S, 0, d);
      state := S_INIT;
      what := Sending;
    }

    /** getrslot: the first free slot, marked as allocated, or -1. */
    method GetRslot() returns (n: int)
      requires Valid()
      modifies this`ipktinfo
      ensures Valid()
      ensures n == FirstFree(old(ipktinfo), 0)
      ensures ipktinfo == if n < 0 then old(ipktinfo) else old(ipktinfo)[n := old(ipktinfo)[n].(len := -1)]
      ensures View() == old(View()).(slots := ipktinfo)
    {
      var i := 0;
      while i < 4
        invariant 0 <= i <= 4 && FirstFree(ipktinfo, 0) == FirstFree(ipktinfo, i) && ipktinfo == old(ipktinfo)
      {
        if ipktinfo[i].len < 1 {
          SetLen(i, -1);
          return i;
        }
        i := i + 1;
      }
      return -1;
    }

    method SetLen(slot: nat, len: int)
      requires slot < |ipktinfo|
      modifies this`ipktinfo
      ensures ipktinfo == old(ipktinfo)[slot := old(ipktinfo)[slot].(len := len)]
    {
      ipktinfo := ipktinfo[slot := ipktinfo[slot].(len := len)];
    }

    method FreeRslot(slot: nat)
      requires slot < |ipktinfo|
      modifies this`ipktinfo
      ensures ipktinfo == old(ipktinfo)[slot := old(ipktinfo)[slot].(len := 0)]
    {
      SetLen(slot, 0);
    }

    /** Counts a retry; the answer is whether the limit had been passed before. */
    method CountRetry(slot: nat) returns (exhausted: bool)
      requires slot < |ipktinfo|
      modifies this`ipktinfo
      ensures exhausted == (old(ipktinfo)[slot].rtr > neg.p.retry)
      ensures ipktinfo == old(ipktinfo)[slot := old(ipktinfo)[slot].(rtr := old(ipktinfo)[slot].rtr + 1)]
    {
      exhausted := ipktinfo[slot].rtr > neg.p.retry;
      ipktinfo := ipktinfo[slot := ipktinfo[slot].(rtr := ipktinfo[slot].rtr + 1)];
    }

    method Spkt(typ: byte, sq: int, data: seq<byte>)
      modifies this`s_seq, this`opkt, this`line
      ensures s_seq == sq && opkt == Some(Packet(sq, typ, data)) && line == old(line) + [Packet(sq, typ, data)]
    {
      s_seq := sq;
      opkt := Some(Packet(sq, typ, data));
      line := line + [Packet(sq, typ, data)];
    }

    method Nak(slot: nat) returns (rc: Outcome)
      requires Valid() && slot < 4
      modifies this`s_seq, this`opkt, this`line, this`ipktinfo
      ensures Valid()
      ensures var res := Engine.Nak(old(View()), slot);
              View() == res.k && line == old(line) + res.sent && rc == res.out
    {
      hide Encoder.Valid;
      hide Encoder.Pending;
      hide Decoder.Valid;
      hide Decoder.Delivered;
      Spkt(N, r_seq, []);
      var exhausted := CountRetry(slot);
      rc := if exhausted then Failed(TooManyRetries) else Ok;
    }

    method Resend() returns (rc: Outcome)
      requires Valid()
      modifies this`line
      ensures Valid()
      ensures var res := Engine.Resend(old(View()));
              View() == res.k && line == old(line) + res.sent && rc == res.out
    {
      hide Encoder.Valid;
      hide Encoder.Pending;
      hide Decoder.Valid;
      hide Decoder.Delivered;
      if opkt.Some? {
        line := line + [opkt.value];
      }
      rc := Ok;
    }

    /** NAK or repetition, depending on which side we are. */
    method Refuse(slot: nat) returns (rc: Outcome)
      requires Valid() && slot < 4
      modifies this`s_seq, this`opkt, this`line, this`ipktinfo
      ensures Valid()
      ensures var res := Engine.Refuse(old(View()), slot);
              View() == res.k && line == old(line) + res.sent && rc == res.out
    {
      hide Encoder.Valid;
      hide Encoder.Pending;
      hide Decoder.Valid;
      hide Decoder.Delivered;
      if what.Receiving? {
        rc := Nak(slot);
      } else {
        rc := Resend();
      }
    }

    method Ack(sq: int, text: seq<byte>)
      requires Valid()
      modifies this`s_seq, this`opkt, this`line, this`r_seq
      ensures Valid()
      ensures var res := Engine.Ack(old(View()), sq, text);
              View() == res.k && line == old(line) + res.sent
    {
      hide Encoder.Valid;
      hide Encoder.Pending;
      hide Decoder.Valid;
      hide Decoder.Delivered;
      Spkt(Y, sq, text);
      r_seq := (r_seq + 1) % 64;
    }

    method EPkt(message: seq<byte>, reason: Reason) returns (rc: Outcome)
      requires Valid()
      modifies this`s_seq, this`opkt, this`line, neg
      ensures Valid()
      ensures var res := Engine.Abort(old(View()), reason, message);
              View() == res.k && line == old(line) + res.sent && rc == res.out
    {
      hide Encoder.Valid;
      hide Encoder.Pending;
      hide Decoder.Valid;
      hide Decoder.Delivered;
      neg.p := neg.p.(bct := 1);
      assert Code() == old(Code());
      Spkt(E, 0, message);
      rc := Failed(reason);
    }

    // ---- Receiving ----

    /** R_WAIT: the parameters of the other side are adopted and answered. */
    method TakeParameters(p: Packet) returns (rc: Outcome)
      requires Valid() && what.Receiving? && state == R_WAIT && p.typ == S
      requires Engine.Receive(View(), p).out != Failed(Malformed)
      modifies this, neg
      ensures Valid() && what == old(what) && ipktinfo == old(ipktinfo)
      ensures var res := Engine.Receive(old(View()), p);
              View() == res.k && line == old(line) + res.sent && rc == res.out
    {
      hide Encoder.Valid;
      hide Encoder.Pending;
      hide Decoder.Valid;
      hide Decoder.Delivered;
      hide Adopt;
      hide Announce;
      hide Requested;
      hide Both;
      CapasStayKnown(neg.p, p.data);
      ghost var q := Code();
      neg.Spar(p.data);
      var d, _ := neg.Rpar();
      enc.AnyCode(q, Code());
      Ack(0, d);
      state := R_FILE;
      rc := Ok;
    }

    /** R_FILE: a new file. */
    method TakeName(p: Packet) returns (rc: Outcome)
      requires Valid() && what.Receiving? && state == R_FILE && p.typ == F
      requires Engine.Receive(View(), p).out != Failed(Malformed)
      modifies this
      ensures Valid() && what == old(what) && ipktinfo == old(ipktinfo)
      ensures var res := Engine.Receive(old(View()), p);
              View() == res.k && line == old(line) + res.sent && rc == res.out
    {
      hide Adopt;
      hide Announce;
      hide ReadAttrs;
      hide Engine.Unexpected;
      hide Encoder.Valid;
      hide Encoder.Pending;
      hide Decoder.Valid;
      hide Decoder.Delivered;
      var name := dec.DecodeName(DecodeQuoting(neg.p), p.data);
      filename := name;
      state := R_ATTR;
      attrs := NO_ATTRS;
      Ack(r_seq, filename);
      rc := Ok;
    }

    /** R_ATTR: its attributes. */
    method TakeAttributes(p: Packet) returns (rc: Outcome)
      requires Valid() && what.Receiving? && state == R_ATTR && p.typ == A && 0 !in p.data
      requires Engine.Receive(View(), p).out != Failed(Malformed)
      modifies this
      ensures Valid() && what == old(what) && ipktinfo == old(ipktinfo)
      ensures var res := Engine.Receive(old(View()), p);
              View() == res.k && line == old(line) + res.sent && rc == res.out
    {
      hide Encoder.Valid;
      hide Encoder.Pending;
      hide Decoder.Valid;
      hide Decoder.Delivered;
      attrs := GAttr(p.data);
      Ack(r_seq, [Y]);
      rc := Ok;
    }

    /** R_ATTR, R_DATA: data; the first packet opens the output file. */
    method TakeData(p: Packet) returns (rc: Outcome)
      requires Valid() && what.Receiving? && (state == R_ATTR || state == R_DATA) && p.typ == D
      requires Engine.Receive(View(), p).out != Failed(Malformed)
      modifies this, dec, dec.obuf
      ensures Valid() && what == old(what) && ipktinfo == old(ipktinfo)
      ensures var res := Engine.Receive(old(View()), p);
              View() == res.k && line == old(line) + res.sent && rc == res.out
    {
      hide Encoder.Valid;
      hide Encoder.Pending;
      hide Decoder.Valid;
      hide Decoder.Delivered;
      if state == R_ATTR {
        dec.Open();
        state := R_DATA;
      }
      var q := DecodeQuoting(neg.p);
      dec.DecodeData(q, p.data);
      assert [] + Decode(q, p.data).value == Decode(q, p.data).value;
      Ack(r_seq, []);
      rc := Ok;
    }

    /** What a Z packet with the wanted number does. */
    lemma EndReceived(k: KState, p: Packet)
      requires (k.state == R_ATTR || k.state == R_DATA) && p.typ == Z
      ensures var content := if k.state == R_ATTR then [] else k.delivered;
              Engine.Receive(k, p) == Engine.Ack(Closed(k.(delivered := content), p.data, content), k.r_seq, [])
    {
    }

    /** R_ATTR, R_DATA: end of file; what is still buffered is written and the file closed. */
    method TakeEnd(p: Packet) returns (rc: Outcome)
      requires Valid() && what.Receiving? && (state == R_ATTR || state == R_DATA) && p.typ == Z
      requires Engine.Receive(View(), p).out != Failed(Malformed)
      modifies this, dec
      ensures Valid() && what == old(what) && ipktinfo == old(ipktinfo)
      ensures var res := Engine.Receive(old(View()), p);
              View() == res.k && line == old(line) + res.sent && rc == res.out
    {
      hide Adopt;
      hide Announce;
      hide ReadAttrs;
      hide Decode;
      hide Engine.Unexpected;
      hide Encoder.Valid;
      hide Encoder.Pending;
      hide Decoder.Valid;
      hide Decoder.Delivered;
      hide Engine.Receive;
      EndReceived(View(), p);
      if state == R_ATTR {
        dec.Open();
      } else {
        dec.Flush();
      }
      if p.data == [] || p.data[0] != D {
        log := log + [Received(filename, dec.written, attrs)];
      }
      state := R_FILE;
      Ack(r_seq, []);
      rc := Ok;
    }

    /** A packet with the wanted number, at the receiver: the protocol switch. */
    method Receive(p: Packet) returns (rc: Outcome)
      requires Valid() && what.Receiving? && 0 !in p.data
      requires Engine.Receive(View(), p).out != Failed(Malformed)
      modifies this, neg, dec, dec.obuf
      ensures Valid() && what == old(what) && ipktinfo == old(ipktinfo)
      ensures var res := Engine.Receive(old(View()), p);
              View() == res.k && line == old(line) + res.sent && rc == res.out
    {
      hide Encoder.Valid;
      hide Encoder.Pending;
      hide Decoder.Valid;
      hide Decoder.Delivered;
      if state == R_WAIT && p.typ == S {
        rc := TakeParameters(p);
      } else if state == R_FILE && p.typ == F {
        rc := TakeName(p);
      } else if state == R_FILE && p.typ == B {
        Ack(r_seq, []);
        rc := Done;
      } else if state == R_ATTR && p.typ == A {
        rc := TakeAttributes(p);
      } else if (state == R_ATTR || state == R_DATA) && p.typ == D {
        rc := TakeData(p);
      } else if (state == R_ATTR || state == R_DATA) && p.typ == Z {
        rc := TakeEnd(p);
      } else {
        rc := EPkt(Ascii("Unexpected packet type"), UnexpectedType);
      }
    }

    // ---- Sending ----

    /** Sends a packet with the next sequence number and waits for its acknowledgement. */
    method Issue(typ: byte, data: seq<byte>, st: State)
      requires Valid() && st != S_INIT && (what.Sending? && st == S_FILE ==> 1 <= next <= |filelist|)
      modifies this`s_seq, this`r_seq, this`opkt, this`line, this`state
      ensures Valid()
      ensures var res := Engine.Issue(old(View()), typ, data, st);
              View() == res.k && line == old(line) + res.sent && res.out.Ok?
    {
      hide Encoder.Valid;
      hide Encoder.Pending;
      hide Decoder.Valid;
      hide Decoder.Delivered;
      s_seq := (s_seq + 1) % 64;
      Spkt(typ, s_seq, data);
      state := st;
      r_seq := s_seq;
    }

    /** sdata: the next data packet, or Z when there is nothing left. */
    method SData() returns (ghost fill: Fill)
      requires Valid() && what.Sending? && state != S_INIT && Config(neg.p).Usable()
      modifies this`s_seq, this`r_seq, this`opkt, this`line, this`state,
               enc, enc.source, enc.source.zinbuf, enc.xdata, enc.s_remain
      ensures Valid()
      ensures DataField(old(Code()), old(View()).pending, fill)
      ensures var res := Engine.SendData(old(View()), fill);
              View() == res.k && line == old(line) + res.sent && res.out.Ok?
    {
      hide Encoder.Valid;
      hide Encoder.Pending;
      hide Decoder.Valid;
      hide Decoder.Delivered;
      hide Decode;
      ghost var before := View();
      var len := enc.GetPkt(Config(neg.p));
      var field := enc.xdata[..len];
      ghost var rest := enc.Pending(Code());
      fill := Fill(field, rest);
      assert field == [] ==> rest == before.pending by {
        if field == [] {
          EmptyField(Code(), field);
          assert [] + rest == rest;
        }
      }
      if field == [] {
        Issue(Z, [], S_EOF);
      } else {
        Issue(D, field, S_DATA);
      }
    }

    /** S_INIT, S_EOF: the next file of the list, or the end of the transaction. */
    method NextFile() returns (ghost fill: Fill)
      requires Valid() && what.Sending? && Config(neg.p).Usable()
      modifies this, enc, enc.source, enc.source.zinbuf, enc.xdata, enc.s_remain
      ensures Valid()
      ensures old(next < |filelist|) ==> NameField(Config(neg.p), old(filelist)[old(next)].name, fill.field)
      ensures var res := Engine.NextFile(old(View()), fill);
              View() == res.k && line == old(line) + res.sent && res.out.Ok?
    {
      hide Encoder.Valid;
      hide Encoder.Pending;
      hide Decoder.Valid;
      hide Decoder.Delivered;
      hide Decode;
      fill := Fill([], []);
      if next < |filelist| {
        var f := filelist[next];
        next := next + 1;
        OpenForReading(f);
        var field := enc.xdata[..enc.size];
        fill := Fill(field, []);
        Issue(F, field, S_FILE);
      } else {
        Issue(B, [], S_EOT);
      }
    }

    /** Opens a file to send and encodes its name. */
    method OpenForReading(f: File)
      requires enc.Valid(Code()) && Config(neg.p).Usable() && 0 !in f.name
      modifies enc, enc.source, enc.source.zinbuf, enc.xdata, enc.s_remain
      ensures enc.Valid(Code()) && !enc.fromString && enc.s_first == 1 && enc.Pending(Code()) == f.content
      ensures enc.size <= enc.xdata.Length && NameField(Config(neg.p), f.name, enc.xdata[..enc.size])
    {
      hide Decode;
      enc.source.Open(f.content);
      enc.EncStr(f.name, Config(neg.p));
    }

    /** S_INIT: adopts the other side's parameters before the first file. */
    method Opening(p: Packet) returns (ghost fill: Fill)
      requires Valid() && what.Sending? && state == S_INIT && Config(Adopt(neg.p, p.data)).Usable()
      modifies this, neg, enc, enc.source, enc.source.zinbuf, enc.xdata, enc.s_remain
      ensures Valid()
      ensures old(next < |filelist|) ==>
                NameField(Config(Adopt(old(neg.p), p.data)), old(filelist)[old(next)].name, fill.field)
      ensures var res := Engine.Proceed(old(View()), p, fill);
              View() == res.k && line == old(line) + res.sent && res.out.Ok?
    {
      hide Encoder.Valid;
      hide Encoder.Pending;
      hide Decoder.Valid;
      hide Decoder.Delivered;
      hide Adopt;
      hide NameField;
      hide Both;
      CapasStayKnown(neg.p, p.data);
      ghost var q := Code();
      neg.Spar(p.data);
      enc.AnyCode(q, Code());
      fill := NextFile();
    }

    /** S_FILE: the attributes of the file being sent. */
    method SendAttributes()
      requires Valid() && what.Sending? && state == S_FILE
      modifies this`s_seq, this`r_seq, this`opkt, this`line, this`state
      ensures Valid()
      ensures var res := Engine.Issue(old(View()), A, AttrField(CurrentFile(old(View()))), S_ATTR);
              View() == res.k && line == old(line) + res.sent && res.out.Ok?
    {
      hide Encoder.Valid;
      hide Encoder.Pending;
      hide Decoder.Valid;
      hide Decoder.Delivered;
      hide AttrString;
      hide Engine.Issue;
      var f := filelist[next - 1];
      var attributes := SAttr(f.binary, |f.content|, f.date);
      Issue(A, attributes, S_ATTR);
    }

    /** After the acknowledgement of a file name: its attributes, if the other side wants them. */
    method AfterName() returns (ghost fill: Fill)
      requires Valid() && what.Sending? && state == S_FILE && Config(neg.p).Usable()
      modifies this`s_seq, this`r_seq, this`opkt, this`line, this`state,
               enc, enc.source, enc.source.zinbuf, enc.xdata, enc.s_remain
      ensures Valid()
      ensures !Has(old(neg.p).capas, CAP_AT) ==> DataField(old(Code()), old(View()).pending, fill)
      ensures var k := old(View());
              var res := if Has(k.par.capas, CAP_AT) then Engine.Issue(k, A, AttrField(CurrentFile(k)), S_ATTR)
                         else Engine.SendData(k, fill);
              View() == res.k && line == old(line) + res.sent && res.out.Ok?
    {
      hide Encoder.Valid;
      hide Encoder.Pending;
      hide Decoder.Valid;
      hide Decoder.Delivered;
      hide DataField;
      hide Has;
      hide Engine.SendData;
      hide Engine.Issue;
      hide AttrField;
      hide CurrentFile;
      fill := Fill([], []);
      if Has(neg.p.capas, CAP_AT) {
        SendAttributes();
      } else {
        fill := SData();
      }
    }

    /** Between files: the first or the next one. */
    method BetweenFiles(p: Packet) returns (ghost fill: Fill)
      requires Valid() && what.Sending? && (state == S_INIT || state == S_EOF)
      requires Config(if state == S_INIT then Adopt(neg.p, p.data) else neg.p).Usable()
      modifies this, neg, enc, enc.source, enc.source.zinbuf, enc.xdata, enc.s_remain
      ensures Valid()
      ensures LegalFill(old(View()), Intact(p, 0), fill)
      ensures var res := Engine.Proceed(old(View()), p, fill);
              View() == res.k && line == old(line) + res.sent && res.out.Ok?
    {
      hide Encoder.Valid;
      hide Encoder.Pending;
      hide Decoder.Valid;
      hide Decoder.Delivered;
      hide Adopt;
      hide NameField;
      hide Engine.NextFile;
      hide Cancelled;
      if state == S_INIT {
        fill := Opening(p);
      } else {
        fill := NextFile();
      }
    }

    /** In the middle of a file. */
    method WithinFile(p: Packet) returns (ghost fill: Fill)
      requires Valid() && what.Sending? && (state == S_FILE || state == S_ATTR || state == S_DATA)
      requires Config(neg.p).Usable()
      modifies this`s_seq, this`r_seq, this`opkt, this`line, this`state,
               enc, enc.source, enc.source.zinbuf, enc.xdata, enc.s_remain
      ensures Valid()
      ensures LegalFill(old(View()), Intact(p, 0), fill)
      ensures var res := Engine.Proceed(old(View()), p, fill);
              View() == res.k && line == old(line) + res.sent && res.out.Ok?
    {
      hide Encoder.Valid;
      hide Encoder.Pending;
      hide Decoder.Valid;
      hide Decoder.Delivered;
      hide Adopt;
      hide DataField;
      hide Has;
      hide Cancelled;
      hide Engine.SendData;
      hide Engine.Issue;
      hide AttrField;
      hide CurrentFile;
      if state == S_FILE {
        fill := AfterName();
      } else {
        fill := SData();
      }
    }

    /** What the sender does with the acknowledgement it waits for. */
    method Proceed(p: Packet) returns (rc: Outcome, ghost fill: Fill)
      requires Valid() && what.Sending? && p.typ == Y && p.sq == r_seq && !Cancelled(View(), p)
      requires Config(if state == S_INIT then Adopt(neg.p, p.data) else neg.p).Usable()
      modifies this, neg, enc, enc.source, enc.source.zinbuf, enc.xdata, enc.s_remain
      ensures Valid()
      ensures LegalFill(old(View()), Intact(p, 0), fill)
      ensures var res := Engine.Proceed(old(View()), p, fill);
              View() == res.k && line == old(line) + res.sent && rc == res.out
    {
      hide Encoder.Valid;
      hide Encoder.Pending;
      hide Decoder.Valid;
      hide Decoder.Delivered;
      hide Adopt;
      hide LegalFill;
      hide Cancelled;
      hide Ascii;
      hide Engine.Abort;
      hide Engine.Proceed;
      fill := Fill([], []);
      rc := Ok;
      if state == S_INIT || state == S_EOF {
        fill := BetweenFiles(p);
      } else if state == S_FILE || state == S_ATTR || state == S_DATA {
        fill := WithinFile(p);
      } else {
        NothingToSend(View(), p, fill);
        if state == S_EOT {
          rc := Done;
        } else {
          rc := EPkt(Ascii("Unexpected packet type"), UnexpectedType);
        }
      }
    }

    lemma NothingToSend(k: KState, p: Packet, fill: Fill)
      requires !(k.state in {S_INIT, S_EOF, S_FILE, S_ATTR, S_DATA})
      ensures LegalFill(k, Intact(p, 0), fill)
      ensures Engine.Proceed(k, p, fill) == if k.state == S_EOT then Res(k, [], Done) else Engine.Unexpected(k)
    {
    }

    /** Moves the file list pointer to the end of the list. */
    method SkipList()
      requires Valid() && state != S_FILE
      modifies this`next
      ensures Valid() && next == if old(next) < |filelist| then |filelist| else old(next)
      ensures View() == old(View()).(next := next)
    {
      while next < |filelist|
        invariant next <= |filelist| || next == old(next)
        modifies this`next
      {
        next := next + 1;
      }
    }

    /** The receiver asks for the file, or all files, to be dropped. */
    method Cancel(p: Packet)
      requires Valid() && what.Sending? && state == S_DATA && p.data != []
      modifies this`s_seq, this`r_seq, this`opkt, this`line, this`state, this`next
      ensures Valid()
      ensures var res := Engine.Cancel(old(View()), p);
              View() == res.k && line == old(line) + res.sent && res.out.Ok?
    {
      hide Encoder.Valid;
      hide Encoder.Pending;
      hide Decoder.Valid;
      hide Decoder.Delivered;
      hide Engine.Issue;
      if p.data[0] == Z {
        SkipList();
      }
      Issue(Z, [], S_EOF);
    }

    /** The previous packet again: it is counted and answered as before, until there are too many. */
    method RepeatOrGiveUp(slot: nat) returns (rc: Outcome)
      requires Valid() && slot < 4
      modifies this, neg
      ensures Valid()
      ensures var k := old(View());
              var res := if Exhausted(k, slot) then
                           Abort(Retried(k, slot), TooManyRetries, Ascii("Too many retries"))
                         else Engine.Resend(Retried(k, slot));
              View() == res.k && line == old(line) + res.sent && rc == res.out
    {
      hide Encoder.Valid;
      hide Encoder.Pending;
      hide Decoder.Valid;
      hide Decoder.Delivered;
      hide Engine.Resend;
      hide Engine.Abort;
      hide Ascii;
      var exhausted := CountRetry(slot);
      if exhausted {
        rc := EPkt(Ascii("Too many retries"), TooManyRetries);
      } else {
        rc := Resend();
      }
    }

    /** An intact packet with a number that is not wanted. */
    method WrongNumber(slot: nat, p: Packet) returns (rc: Outcome)
      requires Valid() && slot < 4
      modifies this, neg
      ensures Valid()
      ensures var res := Engine.WrongNumber(old(View()), slot, p);
              View() == res.k && line == old(line) + res.sent && rc == res.out
    {
      hide Encoder.Valid;
      hide Encoder.Pending;
      hide Decoder.Valid;
      hide Decoder.Delivered;
      hide Engine.Resend;
      hide Engine.Refuse;
      hide Engine.Abort;
      hide Ascii;
      FreeRslot(slot);
      var prev := if r_seq - 1 < 0 then 63 else r_seq - 1;
      if p.sq == prev {
        rc := RepeatOrGiveUp(slot);
      } else {
        rc := Refuse(slot);
      }
    }

    /** The receiver's part of it. */
    method TakePacket(slot: nat, p: Packet) returns (rc: Outcome)
      requires Valid() && what.Receiving? && slot < 4 && 0 !in p.data
      requires Engine.Receive(View(), p).out != Failed(Malformed)
      modifies this, neg, dec, dec.obuf
      ensures Valid()
      ensures var res := Engine.TakePacket(old(View()), slot, p);
              View() == res.k && line == old(line) + res.sent && rc == res.out
    {
      hide Encoder.Valid;
      hide Encoder.Pending;
      hide Decoder.Valid;
      hide Decoder.Delivered;
      hide Engine.Receive;
      var st := state;
      rc := Receive(p);
      if !(rc.Failed? && st != R_WAIT && st != R_FILE) {
        FreeRslot(slot);
      }
    }

    /** The sender's part. */
    method TakeAnswer(slot: nat, p: Packet) returns (rc: Outcome, ghost fill: Fill)
      requires Valid() && what.Sending? && slot < 4 && p.sq == r_seq
      requires p.typ == Y && !Cancelled(View(), p) ==>
                 Config(if state == S_INIT then Adopt(neg.p, p.data) else neg.p).Usable()
      modifies this, neg, enc, enc.source, enc.source.zinbuf, enc.xdata, enc.s_remain
      ensures Valid()
      ensures LegalFill(old(View()), Intact(p, 0), fill)
      ensures var res := Engine.TakeAnswer(old(View()), slot, p, fill);
              View() == res.k && line == old(line) + res.sent && rc == res.out
    {
      hide Encoder.Valid;
      hide Encoder.Pending;
      hide Decoder.Valid;
      hide Decoder.Delivered;
      hide Engine.Resend;
      hide Engine.Proceed;
      hide Engine.Cancel;
      hide Adopt;
      hide LegalFill;
      ghost var start := View();
      fill := Fill([], []);
      if p.typ != Y {
        FreeRslot(slot);
        rc := Resend();
        Unneeded(start, p, fill);
      } else if state == S_DATA && p.data != [] && (p.data[0] == X || p.data[0] == Z) {
        Cancel(p);
        rc := Ok;
        Unneeded(start, p, fill);
      } else {
        FreeRslot(slot);
        ghost var freed := View();
        rc, fill := Proceed(p);
        SameNeed(start, freed, p, fill);
      }
    }

    /** An intact packet with the number wanted. */
    method RightNumber(slot: nat, p: Packet) returns (rc: Outcome, ghost fill: Fill)
      requires Valid() && slot < 4 && 0 !in p.data && p.sq == r_seq
      requires what.Receiving? ==> Engine.RightNumber(View(), slot, p, Fill([], [])).out != Failed(Malformed)
      requires what.Sending? && p.typ == Y && !Cancelled(View(), p) ==>
                 Config(if state == S_INIT then Adopt(neg.p, p.data) else neg.p).Usable()
      modifies this, neg, enc, enc.source, enc.source.zinbuf, enc.xdata, enc.s_remain, dec, dec.obuf
      ensures Valid()
      ensures LegalFill(old(View()), Intact(p, 0), fill)
      ensures var res := Engine.RightNumber(old(View()), slot, p, fill);
              View() == res.k && line == old(line) + res.sent && rc == res.out
    {
      hide Encoder.Valid;
      hide Encoder.Pending;
      hide Decoder.Valid;
      hide Decoder.Delivered;
      hide Engine.Receive;
      hide Engine.TakeAnswer;
      hide Adopt;
      hide LegalFill;
      ghost var start := View();
      ipktinfo := ipktinfo[slot := ipktinfo[slot].(rtr := 0)];
      ghost var counted := View();
      if what.Receiving? {
        rc := TakePacket(slot, p);
        fill := Fill([], []);
        Unneeded(start, p, fill);
      } else {
        rc, fill := TakeAnswer(slot, p);
        SameNeed(start, counted, p, fill);
      }
    }

    /** No field is needed unless the acknowledgement waited for has come. */
    lemma Unneeded(k: KState, p: Packet, fill: Fill)
      requires !Awaited(k, Intact(p, 0))
      ensures LegalFill(k, Intact(p, 0), fill)
    {
    }

    /** The slots do not enter into what field is needed. */
    lemma SameNeed(k: KState, k': KState, p: Packet, fill: Fill)
      requires k' == k.(slots := k'.slots) && LegalFill(k', Intact(p, 0), fill)
      ensures forall len :: LegalFill(k, Intact(p, len), fill)
    {
    }

    /**
     kermit() with K_RUN: one packet, or the news that none could be read, has
     arrived in slot `slot`.
     */
    method Run(slot: nat, rx: Rx) returns (rc: Outcome, ghost fill: Fill)
      requires Valid() && slot < 4 && Fit(View(), slot, rx)
      modifies this, neg, enc, enc.source, enc.source.zinbuf, enc.xdata, enc.s_remain, dec, dec.obuf
      ensures Valid()
      ensures LegalFill(old(View()), rx, fill)
      ensures var res := Engine.Run(old(View()), slot, rx, fill);
              View() == res.k && line == old(line) + res.sent && rc == res.out
    {
      hide Encoder.Valid;
      hide Encoder.Pending;
      hide Decoder.Valid;
      hide Decoder.Delivered;
      hide Engine.Refuse;
      hide Engine.WrongNumber;
      hide Engine.RightNumber;
      hide Adopt;
      hide DataField;
      hide NameField;
      ghost var start := View();
      SetLen(slot, rx.len);
      fill := Fill([], []);
      match rx {
        case Short(_) =>
          rc := Refuse(slot);
        case Damaged(typ, inHeader, _) =>
          FreeRslot(slot);
          if what.Receiving? && (typ == N || typ == Y) {
            rc := Ok;
          } else {
            rc := Refuse(slot);
            if !inHeader {
              rc := Ok;
            }
          }
        case Intact(p, _) =>
          if what.Receiving? && (p.typ == N || p.typ == Y) {
            FreeRslot(slot);
            rc := Ok;
          } else if p.typ == E {
            rc := Failed(PeerError);
          } else if p.sq != r_seq {
            rc := WrongNumber(slot, p);
          } else {
            ghost var arrived := View();
            rc, fill := RightNumber(slot, p);
            SameNeed(start, arrived, p, fill);
          }
      }
    }
  }
}
