/**
 The receiving half of the codec: `decode`, which undoes prefixing and repeat
 counts and writes file data through an output buffer.
 */
module RecvCodec {
  import opened Bytes
  import opened Codec

  const OBUFLEN: nat := 2048

  class Decoder {
    const obuf: array<byte>  // output buffer
    var obufpos: nat         // bytes in it
    var written: seq<byte>   // what writef has been given since the file was opened
    var sofar: nat           // r->sofar

    ghost predicate Valid()
      reads this
    {
      obuf.Length == OBUFLEN && obufpos < OBUFLEN && sofar == |written|
    }

    /** Everything received since the file was opened. */
    ghost function Delivered(): seq<byte>
      requires Valid()
      reads this, obuf
    {
      written + obuf[..obufpos]
    }

    constructor ()
      ensures Valid() && Delivered() == [] && fresh(obuf)
    {
      obuf := new byte[OBUFLEN];
      obufpos, written, sofar := 0, [], 0;
    }

    /** A new output file. */
    method Open()
      requires Valid()
      modifies this
      ensures Valid() && Delivered() == [] == written
    {
      obufpos := 0;
      sofar := 0;
      written := [];
    }

    /** Deposits one byte, emptying the buffer when it is full. */
    method Put(ch: byte)
      requires Valid()
      modifies this, obuf
      ensures Valid() && Delivered() == old(Delivered()) + [ch]
    {
      obuf[obufpos] := ch;
      obufpos := obufpos + 1;
      if obufpos == obuf.Length {
        assert obuf[..] == old(obuf[..obufpos]) + [ch];
        written := written + obuf[..];
        sofar := sofar + obuf.Length;
        obufpos := 0;
      }
    }

    /** End of file: whatever is still buffered is written out. */
    method Flush()
      requires Valid()
      modifies this
      ensures Valid() && Delivered() == old(Delivered()) == written && obufpos == 0 && sofar == |written|
    {
      if obufpos > 0 {
        written := written + obuf[..obufpos];
        sofar := sofar + obufpos;
        obufpos := 0;
      }
    }

    /** One group of a data field from position `i` on: its character, its count and where it ends. */
    method TakeGroup(q: Quoting, inbuf: seq<byte>, i: nat) returns (ch: byte, rpt: nat, next: nat)
      requires i < |inbuf| && DecodeGroup(q, inbuf[i..]).Some?
      ensures i < next <= |inbuf|
      ensures DecodeGroup(q, inbuf[i..]) == Some(Group(ch, if rpt == 0 then 1 else rpt, inbuf[next..]))
    {
      var a := inbuf[i];
      next := i + 1;
      rpt := 0;
      if q.rptflg && a == q.rptq {
        rpt := UnChar(inbuf[next]);
        a := inbuf[next + 1];
        next := next + 2;
        assert inbuf[i..][2..] == inbuf[next - 1..];
      }
      assert inbuf[next - 1..][1..] == inbuf[next..];
      var b8 := false;
      if q.ebqflg && a == q.ebq {
        b8 := true;
        a := inbuf[next] % 128;
        next := next + 1;
        assert inbuf[next - 2..][2..] == inbuf[next..];
      }
      if a == q.ctlq {
        a := inbuf[next];
        next := next + 1;
        assert inbuf[next - 1..][1..] == inbuf[next..];
        var a7 := a % 128;
        if 64 <= a7 <= 95 || a7 == 63 {
          a := Ctl(a);
        }
      }
      ch := if b8 then a % 128 + 128 else a;
    }

    /** Deposits `rpt` copies of a byte. */
    method PutRun(ch: byte, rpt: nat)
      requires Valid()
      modifies this, obuf
      ensures Valid() && Delivered() == old(Delivered()) + Rep(ch, rpt)
    {
      ghost var before := Delivered();
      var left := rpt;
      while left > 0
        invariant Valid() && 0 <= left <= rpt
        invariant Delivered() == before + Rep(ch, rpt - left)
      {
        Put(ch);
        left := left - 1;
        assert Rep(ch, rpt - left - 1) + [ch] == Rep(ch, rpt - left);
      }
    }

    /** Decodes a data field into the output file. */
    method DecodeData(q: Quoting, inbuf: seq<byte>)
      requires Valid() && Decode(q, inbuf).Some?
      modifies this, obuf
      ensures Valid() && Delivered() == old(Delivered()) + Decode(q, inbuf).value
    {
      ghost var all := old(Delivered()) + Decode(q, inbuf).value;
      var i := 0;
      assert inbuf[0..] == inbuf;
      while i < |inbuf|
        invariant Valid() && i <= |inbuf| && Decode(q, inbuf[i..]).Some?
        invariant Delivered() + Decode(q, inbuf[i..]).value == all
      {
        DecodeStep(q, inbuf[i..], Delivered());
        var a, rpt, next := TakeGroup(q, inbuf, i);
        if rpt == 0 {
          rpt := 1;
        }
        PutRun(a, rpt);
        i := next;
      }
      assert Delivered() + [] == Delivered();
    }

    /** Decodes a data field into memory: the file name of an F packet. */
    method DecodeName(q: Quoting, inbuf: seq<byte>) returns (p: seq<byte>)
      requires Decode(q, inbuf).Some?
      ensures p == Decode(q, inbuf).value
    {
      p := [];
      var i := 0;
      while i < |inbuf|
        invariant i <= |inbuf| && Decode(q, inbuf[i..]).Some?
        invariant p + Decode(q, inbuf[i..]).value == Decode(q, inbuf).value
      {
        DecodeStep(q, inbuf[i..], p);
        var a, rpt, next := TakeGroup(q, inbuf, i);
        p := p + Rep(a, if rpt == 0 then 1 else rpt);
        i := next;
      }
    }
  }
}
