/**
 The sending half of the codec: `encode` and `getpkt`, which cut a byte stream
 into data fields with one byte of lookahead and carry leftovers from one field
 to the next.
 */
module SendCodec {
  import opened Bytes
  import opened Codec
  import opened FileIo

  const P_PKTLEN: nat := 2000

  /** The parameters getpkt consults. */
  datatype SendConfig = SendConfig(q: Quoting, s_maxlen: int, bct: int) {
    /** What negotiation must have established before data can be cut up. */
    predicate Usable() {
      && Sound(q)
      && 1 <= bct <= 3
      && 7 <= s_maxlen - bct - 3
      && s_maxlen <= P_PKTLEN
    }
  }

  // ---- What getpkt does, as a function ----

  /** Where a run written at `start` is cut: before it, or between two single characters the first of which fits. */
  function CutPoint(cfg: SendConfig, start: nat, a: byte, n: nat): nat {
    if n == 2 && start + |EncodeChar(cfg.q, a)| <= cfg.s_maxlen - 4 then start + |EncodeChar(cfg.q, a)| else start
  }

  /**
   The loop of getpkt between two bytes: the field so far, how often the lookahead
   byte came before, the byte itself or -1, and the input behind it.
   */
  datatype Loop = Loop(field: seq<byte>, rpt: nat, c: int, input: seq<byte>)

  /** How it ends: the field, what is left over for the next one, the lookahead byte and the input. */
  datatype Packed = Packed(field: seq<byte>, left: seq<byte>, c: int, input: seq<byte>)

  /** The loop at the first byte of an input, or at its end. */
  function Taking(field: seq<byte>, rpt: nat, input: seq<byte>): Loop {
    if input == [] then Loop(field, rpt, -1, []) else Loop(field, rpt, input[0], input[1..])
  }

  /** One turn: the run goes on, or is written. */
  function AfterTurn(q: Quoting, l: Loop): (m: Loop)
    requires 0 <= l.c < 256
    ensures m.c < 256 && (m.c >= 0 ==> |m.input| < |l.input|)
  {
    if q.rptflg && l.input != [] && l.c == l.input[0] && l.rpt + 1 < 94 then Taking(l.field, l.rpt + 1, l.input)
    else Taking(l.field + EncodeRun(q, l.c, l.rpt + 1), 0, l.input)
  }

  lemma TurnIs(q: Quoting, l: Loop, m: Loop)
    requires 0 <= l.c < 256
    requires if l.input == [] then m.c == -1 && m.input == [] else m.c == l.input[0] && m.input == l.input[1..]
    requires if q.rptflg && l.c == m.c && l.rpt + 1 < 94 then m.rpt == l.rpt + 1 && m.field == l.field
             else m.rpt == 0 && m.field == l.field + EncodeRun(q, l.c, l.rpt + 1)
    ensures AfterTurn(q, l) == m
  {
    hide EncodeRun;
  }

  /** The most characters a field may have before the loop looks again. */
  function Room(cfg: SendConfig): int {
    cfg.s_maxlen - cfg.bct - 3
  }

  /** What the loop makes of it. */
  function FillFrom(cfg: SendConfig, l: Loop): Packed
    requires l.c < 256 && (l.c >= 0 ==> |l.field| < Room(cfg))
    decreases if l.c < 0 then 0 else 1 + |l.input|
  {
    if l.c < 0 then Packed(l.field, [], l.c, l.input)
    else
      var m := AfterTurn(cfg.q, l);
      if |m.field| < Room(cfg) then FillFrom(cfg, m)
      else if |m.field| == Room(cfg) then Packed(m.field, [], m.c, m.input)
      else
        var at := CutPoint(cfg, |l.field|, l.c, l.rpt + 1);
        Packed(m.field[..at], m.field[at..], m.c, m.input)
  }

  /** One turn, and what follows from the length of the field. */
  lemma FillTurn(cfg: SendConfig, l: Loop)
    requires l.c < 256 && (l.c >= 0 ==> |l.field| < Room(cfg))
    ensures l.c < 0 ==> FillFrom(cfg, l) == Packed(l.field, [], l.c, l.input)
    ensures l.c >= 0 ==>
              var m := AfterTurn(cfg.q, l);
              var at := CutPoint(cfg, |l.field|, l.c, l.rpt + 1);
              && (|m.field| < Room(cfg) ==> FillFrom(cfg, l) == FillFrom(cfg, m))
              && (|m.field| == Room(cfg) ==> FillFrom(cfg, l) == Packed(m.field, [], m.c, m.input))
              && (|m.field| > Room(cfg) ==>
                    && at <= |m.field|
                    && FillFrom(cfg, l) == Packed(m.field[..at], m.field[at..], m.c, m.input))
  {
    hide EncodeChar;
  }

  // ---- How full a field gets ----

  /** A field is cut off only when at most five more characters would have fitted, less than the longest run takes. */
  lemma {:induction false} FieldIsFull(cfg: SendConfig, l: Loop)
    requires l.c < 256 && l.rpt < 94 && (l.rpt > 0 ==> cfg.q.rptflg) && (l.c >= 0 ==> |l.field| < Room(cfg))
    ensures var packed := FillFrom(cfg, l);
            packed.left != [] || packed.c >= 0 ==> |packed.field| + 5 >= cfg.s_maxlen - cfg.bct - 3
    decreases if l.c < 0 then 0 else 1 + |l.input|
  {
    hide CutPoint;
    FillTurn(cfg, l);
    if l.c >= 0 {
      var m := AfterTurn(cfg.q, l);
      RunLength(cfg, l);
      if |m.field| < Room(cfg) {
        FieldIsFull(cfg, m);
      }
    }
  }

  lemma RunLength(cfg: SendConfig, l: Loop)
    requires 0 <= l.c < 256
    ensures |EncodeRun(cfg.q, l.c, l.rpt + 1)| <= 6
    ensures CutPoint(cfg, |l.field|, l.c, l.rpt + 1) >= |l.field|
  {
    CharLength(cfg.q, l.c);
    hide EncodeChar;
  }

  // ---- How much can be left over ----

  predicate LoopState(cfg: SendConfig, l: Loop) {
    && l.c < 256 && l.rpt < 94 && (l.rpt > 0 ==> cfg.q.rptflg)
    && (l.c >= 0 ==> |l.field| < Room(cfg))
  }

  /** The turn that makes the field too long, if there is one. */
  function LastTurn(cfg: SendConfig, l: Loop): Option<Loop>
    requires l.c < 256
    decreases if l.c < 0 then 0 else 1 + |l.input|
  {
    if l.c < 0 then None
    else
      var m := AfterTurn(cfg.q, l);
      if |m.field| < Room(cfg) then LastTurn(cfg, m)
      else if |m.field| == Room(cfg) then None
      else Some(l)
  }

  /** A pair of bytes that takes six characters, the first three of which end behind the limit. */
  predicate PairPastLimit(cfg: SendConfig, l: Loop) {
    && l.rpt == 1 && cfg.q.ebqflg && 128 <= l.c < 256 && Prefixed(cfg.q, l.c % 128)
    && |l.field| + 3 > cfg.s_maxlen - 4
  }

  lemma CutOfSix(cfg: SendConfig, l: Loop)
    requires LoopState(cfg, l) && 0 <= l.c && |AfterTurn(cfg.q, l).field| > Room(cfg)
    ensures |FillFrom(cfg, l).left| == 6 <==> PairPastLimit(cfg, l)
  {
    RunOfSix(cfg.q, l.c, l.rpt + 1);
    CharLength(cfg.q, l.c);
    FillTurn(cfg, l);
    hide FillFrom;
    hide EncodeChar;
    hide Prefixed;
  }

  lemma CharLength(q: Quoting, a: byte)
    ensures 1 <= |EncodeChar(q, a)| <= 3
    ensures |EncodeChar(q, a)| == 3 <==> q.ebqflg && a >= 128 && Prefixed(q, a % 128)
  {
  }

  /**
   Six characters are left over, one more than there is room for with their NUL, if
   and only if the field overflows by a pair of bytes with eighth-bit and control
   prefixes whose first byte would end past the limit as well.
   */
  lemma {:induction false} SixLeftExactly(cfg: SendConfig, l: Loop)
    requires LoopState(cfg, l)
    ensures |FillFrom(cfg, l).left| == 6 <==>
              LastTurn(cfg, l).Some? && PairPastLimit(cfg, LastTurn(cfg, l).value)
    decreases if l.c < 0 then 0 else 1 + |l.input|
  {
    hide EncodeRun;
    hide Prefixed;
    hide CutPoint;
    if l.c >= 0 {
      FillTurn(cfg, l);
      var m := AfterTurn(cfg.q, l);
      if |m.field| < Room(cfg) {
        SixLeftExactly(cfg, m);
      } else if |m.field| > Room(cfg) {
        CutOfSix(cfg, l);
      }
    }
  }

  lemma {:induction false} LastTurnIsBelow(cfg: SendConfig, l: Loop)
    requires LoopState(cfg, l)
    ensures LastTurn(cfg, l).Some? ==> |LastTurn(cfg, l).value.field| < Room(cfg)
    decreases if l.c < 0 then 0 else 1 + |l.input|
  {
    hide EncodeRun;
    if l.c >= 0 && |AfterTurn(cfg.q, l).field| < Room(cfg) {
      LastTurnIsBelow(cfg, AfterTurn(cfg.q, l));
    }
  }

  /** With check type 3 the field ends early enough for the first byte of such a pair: six are never left. */
  lemma NeverSixWithTypeThree(cfg: SendConfig, l: Loop)
    requires LoopState(cfg, l) && cfg.bct == 3
    ensures |FillFrom(cfg, l).left| != 6
  {
    hide FillFrom;
    hide LastTurn;
    hide Prefixed;
    SixLeftExactly(cfg, l);
    LastTurnIsBelow(cfg, l);
  }

  /** The letters a and b in turn, `n` of them, the last a b. */
  function Turns(n: nat): (s: seq<byte>)
    ensures |s| == n
  {
    if n == 0 then [] else [if n % 2 == 0 then 97 else 98] + Turns(n - 1)
  }

  lemma LetterTurn(cfg: SendConfig, field: seq<byte>, n: nat, rest: seq<byte>)
    requires cfg.q.ctlq < 97 && cfg.q.ebq < 97 && !(97 <= cfg.q.rptq <= 98)
    requires n > 0 && rest != [] && rest[0] >= 128 && |field| + 1 < Room(cfg)
    ensures var a := Turns(n)[0];
            var l := Taking(field, 0, Turns(n) + rest);
            l.c >= 0 && AfterTurn(cfg.q, l) == Taking(field + [a], 0, Turns(n - 1) + rest)
  {
    var a := Turns(n)[0];
    assert Turns(n) + rest == [a] + (Turns(n - 1) + rest);
    assert a % 128 == a && EncodeRun(cfg.q, a, 1) == [a];
    assert (Turns(n - 1) + rest)[0] != a;
  }

  lemma TurnPasses(cfg: SendConfig, l: Loop)
    requires 0 <= l.c < 256 && |AfterTurn(cfg.q, l).field| < Room(cfg)
    ensures LastTurn(cfg, l) == LastTurn(cfg, AfterTurn(cfg.q, l))
  {
  }

  lemma {:induction false} LettersPass(cfg: SendConfig, field: seq<byte>, n: nat, rest: seq<byte>)
    requires cfg.q.ctlq < 97 && cfg.q.ebq < 97 && !(97 <= cfg.q.rptq <= 98)
    requires rest != [] && rest[0] >= 128 && |field| + n < Room(cfg)
    ensures LastTurn(cfg, Taking(field, 0, Turns(n) + rest)) == LastTurn(cfg, Taking(field + Turns(n), 0, rest))
    decreases n
  {
    hide AfterTurn;
    hide LastTurn;
    if n == 0 {
      assert Turns(0) + rest == rest && field + Turns(0) == field;
    } else {
      var a := Turns(n)[0];
      LetterTurn(cfg, field, n, rest);
      hide Taking;
      TurnPasses(cfg, Taking(field, 0, Turns(n) + rest));
      LettersPass(cfg, field + [a], n - 1, rest);
      assert field + [a] + Turns(n - 1) == field + Turns(n);
    }
  }

  /** With check types 1 and 2 and 8th-bit and repeat prefixes six do occur: letters, and then two bytes 128. */
  lemma SixCanBeLeft(cfg: SendConfig)
    requires cfg.Usable() && cfg.bct <= 2 && cfg.q.ebqflg && cfg.q.rptflg
    requires cfg.q.ctlq < 97 && cfg.q.ebq < 97 && !(97 <= cfg.q.rptq <= 98)
    ensures |FillFrom(cfg, Taking([], 0, Turns(cfg.s_maxlen - 6) + [128, 128])).left| == 6
  {
    var n := cfg.s_maxlen - 6;
    var start := Taking([], 0, Turns(n) + [128, 128]);
    LettersPass(cfg, [], n, [128, 128]);
    assert [] + Turns(n) == Turns(n);
    var l := Taking(Turns(n), 0, [128, 128]);
    var m := AfterTurn(cfg.q, l);
    assert m == Loop(Turns(n), 1, 128, []);
    PairOverflows(cfg, m);
    assert LastTurn(cfg, l) == LastTurn(cfg, m) == Some(m);
    SixLeftExactly(cfg, start);
  }

  lemma PairOverflows(cfg: SendConfig, l: Loop)
    requires cfg.Usable() && cfg.q.ebqflg && l.rpt == 1 && l.c == 128 && l.input == [] && |l.field| == cfg.s_maxlen - 6
    ensures |AfterTurn(cfg.q, l).field| > Room(cfg) && PairPastLimit(cfg, l)
  {
    CharLength(cfg.q, 128);
    hide EncodeChar;
  }

  lemma CutPointOf(cfg: SendConfig, start: nat, a: byte, n: nat)
    ensures CutPoint(cfg, start, a, n) ==
            if n == 2 && start + |EncodeChar(cfg.q, a)| <= cfg.s_maxlen - 4 then start + |EncodeChar(cfg.q, a)|
            else start
  {
  }

  /** The two ways of counting what is pending: as an open run, or as leftovers and a lookahead byte. */
  lemma Regroup(sent: seq<byte>, left: seq<byte>, c: int, input: seq<byte>)
    ensures 0 <= c < 256 ==> sent + (left + [c] + input) == sent + left + (Rep(c, 1) + input)
    ensures 0 <= c < 256 ==> left + [c] + input == left + (Rep(c, 1) + input)
    ensures 0 <= c < 256 ==> [] + [c] + input == Rep(c, 1) + input == [c] + input
    ensures sent + left == sent + left + [] && left == left + []
  {
    if 0 <= c < 256 {
      assert Rep(c, 1) == [c];
    }
  }

  /** Only the empty field stands for nothing. */
  lemma EmptyField(q: Quoting, s: seq<byte>)
    ensures Decode(q, []) == Some([]) && Clear(q, [])
    ensures Decode(q, s).Some? ==> (Decode(q, s).value == [] <==> s == [])
  {
    if s != [] && Decode(q, s).Some? {
      assert DecodeGroup(q, s).value.count >= 1;
    }
  }

  /** Regrouping what has been written, the current run and the rest of the input by one byte. */
  lemma RunAhead(done: seq<byte>, a: byte, n: nat, input: seq<byte>, next: int, rest: seq<byte>, written: bool)
    requires if input == [] then next == -1 && written else 0 <= next < 256 && next == input[0] && rest == input[1..]
    requires !written ==> next == a
    ensures next < 0 ==> done + (Rep(a, n) + input) == done + Rep(a, n) + []
    ensures next >= 0 && written ==> done + (Rep(a, n) + input) == done + Rep(a, n) + (Rep(next, 1) + rest)
    ensures !written ==> done + (Rep(a, n) + input) == done + (Rep(a, n + 1) + rest)
  {
    if next >= 0 {
      assert input == [next] + rest && Rep(next, 1) == [next];
      assert Rep(a, n) + [a] == Rep(a, n + 1);
      assert Rep(a, n) + input == Rep(a, n) + [next] + rest;
    }
  }

  /** What is to come of an input after `next`, the lookahead byte, and its `rpt` copies before it. */
  function Coming(next: int, rpt: nat, rest: seq<byte>): seq<byte> {
    if 0 <= next < 256 then Rep(next, rpt + 1) + rest else []
  }

  /** Between two bytes the field and what is to come make up `goal`. */
  ghost predicate Carries(q: Quoting, l: Loop, goal: seq<byte>) {
    && l.c < 256 && l.rpt < 94 && (l.rpt > 0 ==> q.rptflg) && (l.c < 0 ==> l.rpt == 0)
    && Clear(q, l.field) && Decode(q, l.field).Some?
    && Decode(q, l.field).value + Coming(l.c, l.rpt, l.input) == goal
  }

  /** One turn of the loop loses nothing, and what it writes can be cut off again. */
  lemma TurnCarries(cfg: SendConfig, l: Loop, goal: seq<byte>)
    requires Sound(cfg.q) && Carries(cfg.q, l, goal) && l.c >= 0
    ensures var m := AfterTurn(cfg.q, l);
            var at := CutPoint(cfg, |l.field|, l.c, l.rpt + 1);
            && Carries(cfg.q, m, goal) && |m.field| >= |l.field|
            && (m.c < 0 ==> Coming(m.c, m.rpt, m.input) == [])
            && (m.c < 0 || |m.field| > |l.field| ==>
                  && m.rpt == 0 && |l.field| <= at < |m.field| <= at + 6 && Cuttable(cfg.q, m.field, at)
                  && (|l.field| <= cfg.s_maxlen - 4 ==> at <= cfg.s_maxlen - 4))
            && |m.field| + 3 * |Coming(m.c, m.rpt, m.input)| <= |l.field| + 3 * |Coming(l.c, l.rpt, l.input)|
  {
    hide Decode;
    hide Clear;
    hide EncodeChar;
    hide Cuttable;
    var m := AfterTurn(cfg.q, l);
    var n := l.rpt + 1;
    RunSize(cfg.q, l.c, n);
    var written := !(cfg.q.rptflg && l.c == m.c && n < 94);
    if written {
      CutAtRun(cfg.q, l.field, l.c, n, m.field, CutPoint(cfg, |l.field|, l.c, n));
    }
    RunAhead(Decode(cfg.q, l.field).value, l.c, n, l.input, m.c, m.input, written);
    hide EncodeRun;
  }

  class Encoder {
    const source: FileSource
    const xdata: array<byte>     // data field under construction
    const s_remain: array<byte>  // leftovers, NUL-terminated
    var size: nat                // characters in xdata
    var osize: nat               // where the last group started
    var s_rpt: int               // copies of the current byte seen before it
    var s_first: int             // 1 at the start, 0 in the middle, -1 after the last byte
    var c: int                   // lookahead byte
    var fromString: bool         // read istring rather than the file
    var istring: seq<byte>
    var sofar: nat               // bytes taken from the input so far

    ghost function Repr(): set<object> {
      {this, source, source.zinbuf, xdata, s_remain}
    }

    ghost predicate Shape()
      reads source
    {
      && source.Valid()
      && xdata.Length == P_PKTLEN + 2 && s_remain.Length == 7
      && xdata != s_remain && xdata != source.zinbuf && s_remain != source.zinbuf
    }

    /** Bytes not yet taken from the string or file. */
    ghost function Input(): seq<byte>
      reads this`fromString, this`istring, source, source.zinbuf
      requires Shape()
    {
      if fromString then istring else source.Unread()
    }

    ghost function Leftover(): seq<byte>
      reads s_remain
    {
      CString(s_remain[..])
    }

    ghost predicate Valid(q: Quoting)
      reads this, source, source.zinbuf, xdata, s_remain
    {
      && Shape()
      && s_rpt == 0
      && (s_first == 1 || s_first == 0 || s_first == -1)
      && (s_first == 0 ==> 0 <= c < 256)
      && (fromString ==> 0 !in istring)
      && |Leftover()| <= 6
      && (s_first != 1 ==> Decode(q, Leftover()).Some? && Clear(q, Leftover()))
    }

    /** The bytes the fields still to come will stand for. */
    ghost function Pending(q: Quoting): seq<byte>
      requires Valid(q)
      reads this, source, source.zinbuf, xdata, s_remain
    {
      if s_first == 1 then Input()
      else if s_first == 0 then Decode(q, Leftover()).value + [c] + Input()
      else Decode(q, Leftover()).value
    }

    /** The state getpkt is called in. */
    ghost function Opening(): Loop
      reads this, source, source.zinbuf, xdata, s_remain
      requires Shape()
    {
      if s_first == 1 then Taking([], 0, Input())
      else if s_first == 0 && 0 <= c < 256 then Loop(Leftover(), 0, c, Input())
      else Loop(Leftover(), 0, -1, [])
    }

    /** The state of its loop. */
    ghost function Looping(): Loop
      reads this, source, source.zinbuf, xdata, s_remain
      requires Shape() && s_rpt >= 0 && size <= xdata.Length
    {
      if s_first == 0 && 0 <= c < 256 then Loop(xdata[..size], s_rpt, c, Input())
      else Loop(xdata[..size], s_rpt, -1, [])
    }

    /** The state it leaves. */
    ghost function Result(): Packed
      reads this, source, source.zinbuf, xdata, s_remain
      requires Shape() && size <= xdata.Length
    {
      if s_first == 0 && 0 <= c < 256 then Packed(xdata[..size], Leftover(), c, Input())
      else Packed(xdata[..size], Leftover(), -1, [])
    }

    /** At the start of an input nothing depends on the code in force. */
    lemma AnyCode(q: Quoting, q': Quoting)
      requires Valid(q) && s_first == 1
      ensures Valid(q') && Pending(q') == Pending(q)
    {
    }

    constructor ()
      ensures fresh(Repr() - {this})
      ensures forall q :: Valid(q) && Pending(q) == []
      ensures s_first == 1 && !fromString
    {
      var src := new FileSource();
      var remain := new byte[7];
      forall i | 0 <= i < 7 {
        remain[i] := 0;
      }
      source := src;
      s_remain := remain;
      xdata := new byte[P_PKTLEN + 2];
      size, osize, s_rpt, s_first, c, fromString, istring, sofar := 0, 0, 0, 1, 0, false, [], 0;
    }

    /** Appends one character to the field under construction. */
    method Emit(ch: byte)
      requires size < xdata.Length
      modifies this`size, xdata
      ensures size == old(size) + 1 && xdata[..size] == old(xdata[..size]) + [ch]
    {
      xdata[size] := ch;
      size := size + 1;
    }

    /** Writes the repeat prefix and the count. */
    method EmitCount(q: Quoting)
      requires size + 2 <= xdata.Length
      modifies this`size, xdata
      ensures size == old(size) + 2 && xdata[..size] == old(xdata[..size]) + [q.rptq, ToChar(s_rpt)]
    {
      Emit(q.rptq);
      Emit(ToChar(s_rpt));
    }

    /** Writes a single byte with the prefixes it needs, and the terminator. */
    method EncodeOne(a: byte, q: Quoting)
      requires Sound(q) && size + |EncodeChar(q, a)| < xdata.Length
      modifies this`size, xdata
      ensures size == old(size) + |EncodeChar(q, a)| < xdata.Length
      ensures xdata[..size] == old(xdata[..size]) + EncodeChar(q, a)
      ensures xdata[size] == 0
    {
      ghost var before := xdata[..size];
      var ch := a;
      var a7 := ch % 128;
      var b8 := ch >= 128;
      if q.ebqflg && b8 {
        Emit(q.ebq);
        ch := a7;
      }
      if a7 < 32 || a7 == 127 {
        Emit(q.ctlq);
        ch := Ctl(ch);
      } else if a7 == q.ctlq {
        Emit(q.ctlq);
      } else if q.ebqflg && a7 == q.ebq {
        Emit(q.ctlq);
      } else if q.rptflg && a7 == q.rptq {
        Emit(q.ctlq);
      }
      Emit(ch);
      assert xdata[..size] == before + EncodeChar(q, a);
      xdata[size] := 0;
    }

    /**
     A run of two. The source calls itself twice here; with a count of zero and no
     lookahead that is exactly a single byte each time.
     */
    method EncodePair(a: byte, cfg: SendConfig)
      requires Sound(cfg.q) && size + |EncodeChar(cfg.q, a) + EncodeChar(cfg.q, a)| < xdata.Length
      modifies this`size, this`osize, this`s_rpt, xdata
      ensures var one := EncodeChar(cfg.q, a);
              && s_rpt == 0 && size == old(size) + |one + one| < xdata.Length
              && xdata[..size] == old(xdata[..size]) + (one + one) && xdata[size] == 0
              && osize == if old(size) + |one| <= cfg.s_maxlen - 4 then old(size) + |one| else old(osize)
    {
      hide EncodeChar;
      s_rpt := 0;
      EncodeOne(a, cfg.q);
      if size <= cfg.s_maxlen - 4 {
        osize := size;
      }
      s_rpt := 0;
      EncodeOne(a, cfg.q);
    }

    /** A longer run: prefix and count, and then the byte. */
    method EncodeCounted(a: byte, q: Quoting)
      requires Sound(q) && size + |[q.rptq, ToChar(s_rpt)] + EncodeChar(q, a)| < xdata.Length
      modifies this`size, this`s_rpt, xdata
      ensures var run := [q.rptq, ToChar(old(s_rpt))] + EncodeChar(q, a);
              && s_rpt == 0 && size == old(size) + |run| < xdata.Length
              && xdata[..size] == old(xdata[..size]) + run && xdata[size] == 0
    {
      hide EncodeChar;
      hide ToChar;
      EmitCount(q);
      s_rpt := 0;
      EncodeOne(a, q);
    }

    /**
     Encodes `a`, which is followed by `next` (-1 at the end). Either the run
     goes on and only the count changes, or the whole run ending in `a` is
     written and terminated.
     */
    method Encode(a: byte, next: int, cfg: SendConfig)
      requires Sound(cfg.q) && cfg.s_maxlen <= P_PKTLEN
      requires -1 <= next < 256
      requires 0 <= s_rpt < 94 && (s_rpt > 0 ==> cfg.q.rptflg)
      requires size + |EncodeRun(cfg.q, a, s_rpt + 1)| < xdata.Length
      modifies this`size, this`osize, this`s_rpt, xdata
      ensures cfg.q.rptflg && a == next && old(s_rpt) + 1 < 94 ==>
                && s_rpt == old(s_rpt) + 1 && size == old(size) && osize == old(osize)
                && xdata[..] == old(xdata[..]) && xdata[..size] == old(xdata[..size])
      ensures !(cfg.q.rptflg && a == next && old(s_rpt) + 1 < 94) ==>
                var one := EncodeChar(cfg.q, a);
                && s_rpt == 0
                && size == old(size) + |EncodeRun(cfg.q, a, old(s_rpt) + 1)| < xdata.Length
                && xdata[..size] == old(xdata[..size]) + EncodeRun(cfg.q, a, old(s_rpt) + 1)
                && xdata[size] == 0
                && osize == if old(s_rpt) == 1 && old(size) + |one| <= cfg.s_maxlen - 4
                            then old(size) + |one| else old(osize)
    {
      hide EncodeChar;
      hide ToChar;
      if cfg.q.rptflg {
        if a == next {
          s_rpt := s_rpt + 1;
          if s_rpt < 94 {
            return;
          } else if s_rpt == 94 {
            EncodeCounted(a, cfg.q);
            return;
          }
        } else if s_rpt == 1 {
          EncodePair(a, cfg);
          return;
        } else if s_rpt > 1 {
          s_rpt := s_rpt + 1;
          EncodeCounted(a, cfg.q);
          return;
        }
      }
      EncodeOne(a, cfg.q);
    }

    /** The next byte of the string or file, -1 at its end. */
    method NextByte() returns (next: int)
      requires Shape() && (fromString ==> 0 !in istring)
      modifies this`istring, source, source.zinbuf
      ensures Shape() && (fromString ==> 0 !in istring)
      ensures fromString ==> source.Unread() == old(source.Unread())
      ensures old(Input()) == [] ==> next == -1 && Input() == []
      ensures old(Input()) != [] ==> 0 <= next < 256 && next == old(Input())[0] && Input() == old(Input())[1..]
    {
      if fromString {
        if istring == [] {
          next := -1;
        } else {
          next := istring[0];
          istring := istring[1..];
        }
      } else {
        next := source.ZGetc();
      }
    }

    /** Takes the next byte and notes the end of the input. */
    method LookAhead() returns (next: int)
      requires Shape() && s_first == 0 && (fromString ==> 0 !in istring)
      modifies this`s_first, this`istring, this`sofar, source, source.zinbuf
      ensures Shape() && (fromString ==> 0 !in istring)
      ensures fromString ==> source.Unread() == old(source.Unread())
      ensures if old(Input()) == [] then s_first == -1 && next == -1
              else s_first == 0 && 0 <= next < 256 && next == old(Input())[0] && Input() == old(Input())[1..]
    {
      next := NextByte();
      if next < 0 {
        s_first := -1;
      } else {
        sofar := sofar + 1;
      }
    }

    /** Moves the leftovers of the previous field into the new one. */
    method TakeLeftover()
      requires Shape() && |Leftover()| <= 6
      modifies this`size, xdata, s_remain
      ensures size == |old(Leftover())| && xdata[..size] == old(Leftover()) && Leftover() == []
    {
      hide CString;
      ghost var left := Leftover();
      size := 0;
      while s_remain[size] != 0
        invariant size <= |left| && s_remain[..] == old(s_remain[..])
        invariant xdata[..size] == left[..size]
        decreases |left| - size
      {
        xdata[size] := s_remain[size];
        size := size + 1;
      }
      xdata[size] := 0;
      s_remain[0] := 0;
      CStringEndsAt(s_remain[..], 0);
    }

    /** Keeps the characters past `osize` for the next field. */
    method SaveLeftover(ghost tail: seq<byte>)
      requires Shape() && |tail| <= 6 && 0 !in tail
      requires osize <= size < xdata.Length && xdata[osize..size] == tail && xdata[size] == 0
      modifies this`size, xdata, s_remain
      ensures Leftover() == tail && size == osize && xdata[..size] == old(xdata[..osize])
    {
      hide CString;
      assert forall j :: 0 <= j < |tail| ==> tail[j] != 0 && xdata[osize + j] == xdata[osize..size][j] == tail[j];
      var i := 0;
      s_remain[i] := xdata[osize + i];
      while s_remain[i] != 0
        invariant i <= |tail| && xdata[..] == old(xdata[..])
        invariant s_remain[..i] == tail[..i] && s_remain[i] == xdata[osize + i]
        decreases |tail| - i
      {
        i := i + 1;
        s_remain[i] := xdata[osize + i];
      }
      CStringEndsAt(s_remain[..], i);
      size := osize;
      xdata[size] := 0;
    }

    /** The run of the lookahead byte and the rest of the input: what the loop has still to encode. */
    ghost function Ahead(): seq<byte>
      reads this, source, source.zinbuf, xdata, s_remain
      requires Shape() && s_first != 1 && s_rpt >= 0
    {
      if s_first == 0 then Coming(c, s_rpt, Input()) else []
    }

    /** The loop of getpkt between two bytes, when `goal` is all there was to send. */
    ghost predicate Filling(q: Quoting, goal: seq<byte>)
      reads this, source, source.zinbuf, xdata, s_remain
    {
      && Shape()
      && (s_first == 0 || s_first == -1)
      && 0 <= s_rpt < 94 && (s_rpt > 0 ==> q.rptflg) && (s_first == -1 ==> s_rpt == 0)
      && (s_first == 0 ==> 0 <= c < 256)
      && (fromString ==> 0 !in istring)
      && Leftover() == []
      && size <= xdata.Length
      && Clear(q, xdata[..size])
      && Decode(q, xdata[..size]).Some?
      && Decode(q, xdata[..size]).value + Ahead() == goal
    }

    /** The loop arrives at `packed`: at once if the field is long enough, else from here on. */
    ghost predicate LeadsTo(cfg: SendConfig, packed: Packed)
      reads this, source, source.zinbuf, xdata, s_remain
    {
      && Shape() && s_rpt >= 0 && size <= xdata.Length
      && var m := Looping();
         if size < Room(cfg) then packed == FillFrom(cfg, m)
         else if size == Room(cfg) then packed == Packed(m.field, [], m.c, m.input)
         else osize <= size && packed == Packed(m.field[..osize], m.field[osize..], m.c, m.input)
    }

    /** After one turn from `l`. */
    lemma Leads(cfg: SendConfig, l: Loop)
      requires Shape() && s_rpt >= 0 && size <= xdata.Length && 0 <= l.c < 256 && |l.field| < Room(cfg)
      requires Looping() == AfterTurn(cfg.q, l)
      requires size > |l.field| ==> osize == CutPoint(cfg, |l.field|, l.c, l.rpt + 1)
      ensures LeadsTo(cfg, FillFrom(cfg, l))
    {
      hide AfterTurn;
      hide FillFrom;
      hide CutPoint;
      hide CString;
      FillTurn(cfg, l);
    }

    /** The body of the loop of getpkt: looks one byte ahead and encodes the current one. */
    method EncodeNext(cfg: SendConfig)
      requires Sound(cfg.q) && cfg.s_maxlen <= P_PKTLEN && Shape() && Leftover() == []
      requires s_first == 0 && 0 <= c < 256 && 0 <= s_rpt < 94 && (s_rpt > 0 ==> cfg.q.rptflg)
      requires fromString ==> 0 !in istring
      requires size + |EncodeRun(cfg.q, c, s_rpt + 1)| < xdata.Length
      modifies this, source, source.zinbuf, xdata
      ensures Shape() && Leftover() == [] && fromString == old(fromString) && (fromString ==> 0 !in istring)
      ensures fromString ==> source.Unread() == old(source.Unread())
      ensures (s_first == 0 && 0 <= c < 256) || (s_first == -1 && c == -1)
      ensures s_rpt >= 0 && size < xdata.Length && Looping() == AfterTurn(cfg.q, old(Looping()))
      ensures s_rpt == 0 ==> xdata[size] == 0 && osize == CutPoint(cfg, old(size), old(c), old(s_rpt) + 1)
    {
      hide EncodeChar;
      hide EncodeRun;
      hide CString;
      hide CutPoint;
      hide AfterTurn;
      hide Leftover;
      hide Input;
      ghost var l := Looping();
      CutPointOf(cfg, size, c, s_rpt + 1);
      var next := LookAhead();
      osize := size;
      Encode(c, next, cfg);
      c := next;
      TurnIs(cfg.q, l, Looping());
    }

    /** One turn of the loop, seen from outside: nothing is lost, and a written run can be cut off. */
    method Advance(cfg: SendConfig, ghost goal: seq<byte>, ghost packed: Packed)
      requires cfg.Usable() && Filling(cfg.q, goal) && s_first == 0
      requires size < cfg.s_maxlen - cfg.bct - 3 && LeadsTo(cfg, packed)
      modifies this, source, source.zinbuf, xdata
      ensures Filling(cfg.q, goal) && fromString == old(fromString)
      ensures fromString ==> source.Unread() == old(source.Unread())
      ensures s_first == 0 ==> |Input()| < old(|Input()|)
      ensures old(size) <= size
      ensures s_first == -1 || size > old(size) ==>
                && s_rpt == 0
                && old(size) <= osize < size < xdata.Length && xdata[size] == 0
                && osize <= cfg.s_maxlen - 4 && size - osize <= 6
                && Cuttable(cfg.q, xdata[..size], osize)
      ensures size + 3 * |Ahead()| <= old(size + 3 * |Ahead()|)
      ensures LeadsTo(cfg, packed)
    {
      hide Decode;
      hide Clear;
      hide CString;
      hide Cuttable;
      hide FillFrom;
      hide AfterTurn;
      hide CutPoint;
      hide Coming;
      ghost var l := Looping();
      assert packed == FillFrom(cfg, l);
      hide LeadsTo;
      RunSize(cfg.q, c, s_rpt + 1);
      RunIsClear(cfg.q, c, s_rpt + 1);
      TurnCarries(cfg, l, goal);
      EncodeNext(cfg);
      Leads(cfg, l);
    }

    /** Discards old leftovers and takes the first byte of a new input. */
    method FirstByte()
      requires Shape() && s_first == 1 && (fromString ==> 0 !in istring)
      modifies this`s_first, this`c, this`istring, this`sofar, source, source.zinbuf, s_remain
      ensures Shape() && (fromString ==> 0 !in istring) && Leftover() == []
      ensures fromString ==> source.Unread() == old(source.Unread())
      ensures if old(Input()) == [] then s_first == -1 && c == -1
              else s_first == 0 && 0 <= c < 256 && old(Input()) == [c] + Input()
    {
      hide CString;
      s_first := 0;
      s_remain[0] := 0;
      CStringEndsAt(s_remain[..], 0);
      ghost var input := Input();
      c := LookAhead();
      assert c >= 0 ==> input == [c] + input[1..];
    }

    /** Starts the field with the leftovers of the last one. */
    method Resume(cfg: SendConfig, ghost goal: seq<byte>)
      requires Shape() && s_rpt == 0 && |Leftover()| <= 6
      requires (s_first == 0 && 0 <= c < 256) || s_first == -1
      requires fromString ==> 0 !in istring
      requires Clear(cfg.q, Leftover()) && Decode(cfg.q, Leftover()).Some?
      requires goal == Decode(cfg.q, Leftover()).value + if s_first == 0 then [c] + Input() else []
      modifies this`size, xdata, s_remain
      ensures Filling(cfg.q, goal)
      ensures size == |old(Leftover())| && xdata[..size] == old(Leftover()) && Input() == old(Input())
    {
      hide Decode;
      hide Clear;
      hide CString;
      hide Rep;
      ghost var left, input := Leftover(), Input();
      Regroup([], Decode(cfg.q, left).value, c, input);
      TakeLeftover();
      assert xdata[..size] == left && Input() == input;
      assert Decode(cfg.q, left).value + Ahead() == goal;
    }

    /** The opening of getpkt: the first byte of a new input, and the leftovers of the last field. */
    method Begin(cfg: SendConfig) returns (more: bool)
      requires Valid(cfg.q)
      modifies this, source, source.zinbuf, xdata, s_remain
      ensures Filling(cfg.q, old(Pending(cfg.q)))
      ensures fromString == old(fromString) && (fromString ==> source.Unread() == old(source.Unread()))
      ensures size <= 6
      ensures more <==> s_first == 0
      ensures size == 0 && !more <==> old(Pending(cfg.q)) == []
      ensures old(s_first) == 1 ==> size == 0 && (more ==> s_rpt == 0)
      ensures Looping() == old(Opening())
      ensures old(s_first) == 1 && !more ==> xdata[..] == old(xdata[..])
    {
      hide Decode;
      hide Clear;
      hide CString;
      ghost var goal := Pending(cfg.q);
      EmptyField(cfg.q, Leftover());
      if s_first == 1 {
        FirstByte();
        if c < 0 {
          size := 0;
          return false;
        }
      } else if s_first == -1 && s_remain[0] == 0 {
        CStringEndsAt(s_remain[..], 0);
        size := 0;
        return false;
      }
      assert goal == Decode(cfg.q, Leftover()).value + if s_first == 0 then [c] + Input() else [];
      Resume(cfg, goal);
      return s_first == 0;
    }

    /** A field that has become too long loses its last run, or half of it, to the next field. */
    method CutOff(cfg: SendConfig, ghost goal: seq<byte>)
      requires cfg.Usable() && Filling(cfg.q, goal)
      requires s_rpt == 0 && 0 < osize < size < xdata.Length && xdata[size] == 0
      requires osize <= cfg.s_maxlen - 4 && Cuttable(cfg.q, xdata[..size], osize)
      modifies this`size, xdata, s_remain
      ensures Valid(cfg.q)
      ensures 0 < size <= cfg.s_maxlen - 4 && size <= xdata.Length
      ensures Clear(cfg.q, xdata[..size]) && Decode(cfg.q, xdata[..size]).Some?
      ensures Decode(cfg.q, xdata[..size]).value + Pending(cfg.q) == goal
      ensures |Leftover()| <= if cfg.q.ebqflg then 6 else 4
      ensures Leftover() == [] || IsRun(cfg.q, Leftover())
      ensures var l := old(Looping());
              osize == old(osize) <= |l.field| && Result() == Packed(l.field[..osize], l.field[osize..], l.c, l.input)
    {
      hide Decode;
      hide IsRun;
      hide Clear;
      hide CString;
      ghost var field := xdata[..size];
      ghost var tail := xdata[osize..size];
      assert field[..osize] == xdata[..osize] && field[osize..] == tail;
      ClearIsClean(cfg.q, tail);
      SaveLeftover(tail);
      Regroup(Decode(cfg.q, field[..osize]).value, Decode(cfg.q, tail).value, c, if s_first == 0 then Input() else []);
    }

    /** A field that ends with a finished run: what is pending is the lookahead byte and the input. */
    lemma AtRest(cfg: SendConfig, goal: seq<byte>)
      requires Filling(cfg.q, goal) && s_rpt == 0
      ensures Valid(cfg.q) && Leftover() == []
      ensures Clear(cfg.q, xdata[..size]) && Decode(cfg.q, xdata[..size]).Some?
      ensures Decode(cfg.q, xdata[..size]).value + Pending(cfg.q) == goal
      ensures s_first == -1 ==> Pending(cfg.q) == []
      ensures Result() == Packed(Looping().field, [], Looping().c, Looping().input)
    {
      hide Clear;
      EmptyField(cfg.q, []);
      hide Decode;
      Regroup(Decode(cfg.q, xdata[..size]).value, [], c, if s_first == 0 then Input() else []);
    }

    lemma OpeningIsState(cfg: SendConfig)
      requires cfg.Usable() && Valid(cfg.q)
      ensures LoopState(cfg, Opening())
      ensures var l := Opening(); l.c < 0 ==> FillFrom(cfg, l) == Packed(l.field, [], l.c, l.input)
    {
      hide Decode;
      hide Clear;
      hide CString;
    }

    /** The loop of getpkt and what it does with a field that has become too long. */
    method Fill(cfg: SendConfig, ghost goal: seq<byte>, ghost atStart: bool)
      requires cfg.Usable() && Filling(cfg.q, goal) && s_first == 0 && size <= 6
      requires atStart ==> size == 0 && s_rpt == 0
      modifies this, source, source.zinbuf, xdata, s_remain
      ensures Valid(cfg.q) && s_first != 1 && fromString == old(fromString)
      ensures fromString ==> source.Unread() == old(source.Unread())
      ensures 0 < size <= xdata.Length && size <= cfg.s_maxlen - 4
      ensures Clear(cfg.q, xdata[..size]) && Decode(cfg.q, xdata[..size]).Some?
      ensures Decode(cfg.q, xdata[..size]).value + Pending(cfg.q) == goal
      ensures |Leftover()| <= if cfg.q.ebqflg then 6 else 4
      ensures Leftover() == [] || IsRun(cfg.q, Leftover())
      ensures atStart && 3 * |goal| < cfg.s_maxlen - cfg.bct - 3 ==> Pending(cfg.q) == []
      ensures Result() == FillFrom(cfg, old(Looping()))
    {
      hide IsRun;
      hide Clear;
      hide Decode;
      hide Cuttable;
      hide CString;
      hide Valid;
      hide AfterTurn;
      hide FillFrom;
      hide CutPoint;
      ghost var packed := FillFrom(cfg, Looping());
      var maxlen := cfg.s_maxlen - cfg.bct - 3;
      while s_first > -1
        invariant Filling(cfg.q, goal) && fromString == old(fromString)
        invariant fromString ==> source.Unread() == old(source.Unread())
        invariant if s_first == 0 then size < maxlen else 0 < size < maxlen
        invariant atStart ==> size + 3 * |Ahead()| <= 3 * |goal|
        invariant LeadsTo(cfg, packed)
        decreases s_first, if s_first == 0 then |Input()| else 0
      {
        Advance(cfg, goal, packed);
        if size == maxlen {
          AtRest(cfg, goal);
          return;
        }
        if size > maxlen {
          CutOff(cfg, goal);
          return;
        }
      }
      FillTurn(cfg, Looping());
      AtRest(cfg, goal);
    }

    /**
     Fills the next data field and returns its length. The field stands, on its
     own, for the first part of what was pending; the rest stays pending. It is
     empty only when nothing was left to send, and it is cut short only when the
     packet is full. Field and leftovers are those of `FillFrom`, so six characters
     are left over as `SixLeftExactly` says, and never with check type 3.
     */
    method GetPkt(cfg: SendConfig) returns (len: nat)
      requires cfg.Usable() && Valid(cfg.q)
      modifies this, source, source.zinbuf, xdata, s_remain
      ensures Valid(cfg.q) && s_first != 1 && fromString == old(fromString)
      ensures fromString ==> source.Unread() == old(source.Unread())
      ensures len == size <= xdata.Length && len <= cfg.s_maxlen - 4
      ensures Clear(cfg.q, xdata[..len]) && Decode(cfg.q, xdata[..len]).Some?
      ensures Decode(cfg.q, xdata[..len]).value + Pending(cfg.q) == old(Pending(cfg.q))
      ensures len == 0 <==> old(Pending(cfg.q)) == []
      ensures |Leftover()| <= if cfg.q.ebqflg then 6 else 4
      ensures Leftover() == [] || IsRun(cfg.q, Leftover())
      ensures old(s_first) == 1 && 3 * |old(Pending(cfg.q))| < cfg.s_maxlen - cfg.bct - 3 ==> Pending(cfg.q) == []
      ensures Result() == FillFrom(cfg, old(Opening()))
      ensures cfg.bct == 3 ==> |Leftover()| <= 5
      ensures old(s_first) == 1 && len == 0 ==> xdata[..] == old(xdata[..])
    {
      hide IsRun;
      hide FillFrom;
      hide LoopState;
      OpeningIsState(cfg);
      if cfg.bct == 3 {
        NeverSixWithTypeThree(cfg, Opening());
      }
      var more := Begin(cfg);
      if more {
        Fill(cfg, old(Pending(cfg.q)), old(s_first) == 1);
      }
      len := size;
    }

    /**
     What the data state of the sender makes of a file: one field after the other,
     until there is no more. Each stands on its own, and together they stand for the
     file.
     */
    method AllFields(cfg: SendConfig) returns (fields: seq<seq<byte>>)
      requires cfg.Usable() && Valid(cfg.q)
      modifies this, source, source.zinbuf, xdata, s_remain
      ensures Valid(cfg.q) && Pending(cfg.q) == []
      ensures DecodeAll(cfg.q, fields) == Some(old(Pending(cfg.q)))
      ensures |fields| <= |old(Pending(cfg.q))|
      ensures forall i :: 0 <= i < |fields| ==> 0 < |fields[i]| <= cfg.s_maxlen - 4 && Clear(cfg.q, fields[i])
    {
      hide Decode;
      hide Clear;
      hide Valid;
      hide Pending;
      hide Leftover;
      hide IsRun;
      hide FillFrom;
      hide Opening;
      hide Result;
      fields := [];
      ghost var goal := Pending(cfg.q);
      assert [] + goal == goal;
      while true
        invariant Valid(cfg.q)
        invariant DecodeAll(cfg.q, fields).Some? && DecodeAll(cfg.q, fields).value + Pending(cfg.q) == goal
        invariant |fields| + |Pending(cfg.q)| <= |goal|
        invariant forall i :: 0 <= i < |fields| ==> 0 < |fields[i]| <= cfg.s_maxlen - 4 && Clear(cfg.q, fields[i])
        decreases |Pending(cfg.q)|
      {
        ghost var before := Pending(cfg.q);
        var len := GetPkt(cfg);
        EmptyField(cfg.q, xdata[..len]);
        if len == 0 {
          assert Decode(cfg.q, xdata[..len]).value == [] by {
            assert xdata[..len] == [];
          }
          assert [] + Pending(cfg.q) == Pending(cfg.q);
          assert DecodeAll(cfg.q, fields).value + [] == DecodeAll(cfg.q, fields).value;
          return;
        }
        OneFieldMore(cfg.q, fields, xdata[..len]);
        ghost var done, field := DecodeAll(cfg.q, fields).value, Decode(cfg.q, xdata[..len]).value;
        ThreeParts(done, field, Pending(cfg.q));
        fields := fields + [xdata[..len]];
      }
    }

    /**
     Encodes a file name into one data field and rewinds the encoder for the file itself.
     An empty name leaves the buffer as it was, without so much as a terminator.
     */
    method EncStr(s: seq<byte>, cfg: SendConfig)
      requires cfg.Usable() && Valid(cfg.q) && 0 !in s
      modifies this, source, source.zinbuf, xdata, s_remain
      ensures Valid(cfg.q) && Pending(cfg.q) == old(source.Unread()) && s_first == 1 && !fromString
      ensures size <= xdata.Length && size <= cfg.s_maxlen - 4
      ensures Clear(cfg.q, xdata[..size]) && Decode(cfg.q, xdata[..size]).Some?
      ensures Decode(cfg.q, xdata[..size]).value <= s
      ensures 3 * |s| < cfg.s_maxlen - cfg.bct - 3 ==> Decode(cfg.q, xdata[..size]).value == s
      ensures s == [] ==> size == 0 && xdata[..] == old(xdata[..])
    {
      hide Decode;
      hide Clear;
      hide CString;
      hide FillFrom;
      hide Taking;
      hide IsRun;
      hide Opening;
      hide Result;
      s_first := 1;
      istring, fromString := s, true;
      var _ := GetPkt(cfg);
      istring, fromString := [], false;
      s_first := 1;
    }
  }
}
