/**
 The data-field code of the Kermit protocol as mathematics: what a data field
 means (`Decode`), what the sender writes for a run of equal bytes
 (`EncodeRun`), and the laws that connect the two.
 */
module Codec {
  import opened Bytes

  /** The prefix characters in force at one end of a transfer. */
  datatype Quoting = Quoting(ctlq: byte, ebqflg: bool, ebq: byte, rptflg: bool, rptq: byte)

  /** The characters the negotiation accepts as prefixes. */
  predicate PrefixChar(ch: byte) {
    33 <= ch <= 62 || 96 <= ch <= 126
  }

  predicate Sound(q: Quoting) {
    && PrefixChar(q.ctlq)
    && (q.ebqflg ==> PrefixChar(q.ebq) && q.ebq != q.ctlq)
    && (q.rptflg ==> PrefixChar(q.rptq) && q.rptq != q.ctlq)
    && (q.ebqflg && q.rptflg ==> q.ebq != q.rptq)
  }

  // ---- Meaning of a data field ----

  /** One decoded group: a character, how often it occurs, and the text after it. */
  datatype Group = Group(ch: byte, count: nat, rest: seq<byte>)

  /** Undoes control prefixing; `first` has already been taken from the field. */
  function DecodeControl(q: Quoting, first: byte, rest: seq<byte>): Option<Group> {
    if first != q.ctlq then Some(Group(first, 1, rest))
    else if rest == [] then None
    else
      var a7 := rest[0] % 128;
      var ch := if 64 <= a7 <= 95 || a7 == 63 then Ctl(rest[0]) else rest[0];
      Some(Group(ch, 1, rest[1..]))
  }

  /** Undoes 8th-bit prefixing. */
  function DecodeChar(q: Quoting, s: seq<byte>): Option<Group>
    requires s != []
  {
    if q.ebqflg && s[0] == q.ebq then
      if |s| < 2 then None
      else
        match DecodeControl(q, s[1] % 128, s[2..])
        case None => None
        case Some(g) => Some(g.(ch := g.ch % 128 + 128))
    else DecodeControl(q, s[0], s[1..])
  }

  /** Undoes repeat prefixing; a count of zero means one. */
  function DecodeGroup(q: Quoting, s: seq<byte>): (r: Option<Group>)
    requires s != []
    ensures r.Some? ==> |r.value.rest| < |s|
  {
    if q.rptflg && s[0] == q.rptq then
      if |s| < 3 then None
      else
        match DecodeChar(q, s[2..])
        case None => None
        case Some(g) => Some(g.(count := if UnChar(s[1]) == 0 then 1 else UnChar(s[1])))
    else DecodeChar(q, s)
  }

  /** The bytes a data field stands for, or `None` if it stops inside a group. */
  function Decode(q: Quoting, s: seq<byte>): Option<seq<byte>>
    decreases |s|
  {
    if s == [] then Some([])
    else
      match DecodeGroup(q, s)
      case None => None
      case Some(g) =>
        match Decode(q, g.rest)
        case None => None
        case Some(t) => Some(Rep(g.ch, g.count) + t)
  }

  /** What a sequence of data fields stands for, each decoded on its own. */
  function DecodeAll(q: Quoting, fields: seq<seq<byte>>): Option<seq<byte>> {
    if fields == [] then Some([])
    else if Decode(q, fields[0]).None? || DecodeAll(q, fields[1..]).None? then None
    else Some(Decode(q, fields[0]).value + DecodeAll(q, fields[1..]).value)
  }

  // ---- What the sender writes ----

  /** The characters that stand for a single byte. */
  function EncodeChar(q: Quoting, a: byte): seq<byte> {
    var a7 := a % 128;
    var eighth := q.ebqflg && a >= 128;
    var b: byte := if eighth then a7 else a;
    (if eighth then [q.ebq] else []) +
    (if a7 < 32 || a7 == 127 then [q.ctlq, Ctl(b)]
     else if a7 == q.ctlq || (q.ebqflg && a7 == q.ebq) || (q.rptflg && a7 == q.rptq) then [q.ctlq, b]
     else [b])
  }

  /** The characters that stand for `n` equal bytes: two are written out, more get a count. */
  function EncodeRun(q: Quoting, a: byte, n: nat): seq<byte> {
    if n <= 1 then EncodeChar(q, a)
    else if n == 2 then EncodeChar(q, a) + EncodeChar(q, a)
    else [q.rptq, ToChar(n)] + EncodeChar(q, a)
  }

  // ---- Laws ----

  lemma DecodeControlExtends(q: Quoting, first: byte, rest: seq<byte>, t: seq<byte>)
    requires DecodeControl(q, first, rest).Some?
    ensures DecodeControl(q, first, rest + t) ==
            Some(DecodeControl(q, first, rest).value.(rest := DecodeControl(q, first, rest).value.rest + t))
  {
    if first == q.ctlq {
      assert (rest + t)[1..] == rest[1..] + t;
    }
  }

  lemma DecodeCharExtends(q: Quoting, s: seq<byte>, t: seq<byte>)
    requires s != [] && DecodeChar(q, s).Some?
    ensures DecodeChar(q, s + t) == Some(DecodeChar(q, s).value.(rest := DecodeChar(q, s).value.rest + t))
  {
    if q.ebqflg && s[0] == q.ebq {
      assert (s + t)[2..] == s[2..] + t;
      DecodeControlExtends(q, s[1] % 128, s[2..], t);
    } else {
      assert (s + t)[1..] == s[1..] + t;
      DecodeControlExtends(q, s[0], s[1..], t);
    }
  }

  lemma DecodeGroupExtends(q: Quoting, s: seq<byte>, t: seq<byte>)
    requires s != [] && DecodeGroup(q, s).Some?
    ensures DecodeGroup(q, s + t) == Some(DecodeGroup(q, s).value.(rest := DecodeGroup(q, s).value.rest + t))
  {
    if q.rptflg && s[0] == q.rptq {
      assert (s + t)[2..] == s[2..] + t;
      DecodeCharExtends(q, s[2..], t);
    } else {
      DecodeCharExtends(q, s, t);
    }
  }

  lemma DecodeOfNonEmpty(q: Quoting, s: seq<byte>)
    requires s != []
    ensures Decode(q, s) ==
            if DecodeGroup(q, s).None? || Decode(q, DecodeGroup(q, s).value.rest).None? then None
            else
              var g := DecodeGroup(q, s).value;
              Some(Rep(g.ch, g.count) + Decode(q, g.rest).value)
  {
  }

  /** The first group of `s`, when what follows it is known to decode part by part. */
  lemma DecodeAppendStep(q: Quoting, s: seq<byte>, t: seq<byte>)
    requires s != [] && Decode(q, s).Some? && Decode(q, t).Some?
    requires var rest := DecodeGroup(q, s).value.rest;
             Decode(q, rest + t) == Some(Decode(q, rest).value + Decode(q, t).value)
    ensures Decode(q, s + t) == Some(Decode(q, s).value + Decode(q, t).value)
  {
    hide Decode;
    hide DecodeGroup;
    hide Rep;
    DecodeOfNonEmpty(q, s);
    DecodeOfNonEmpty(q, s + t);
    DecodeGroupExtends(q, s, t);
    var g := DecodeGroup(q, s).value;
    assert DecodeGroup(q, s + t).value.rest == g.rest + t;
    var a, b, c := Rep(g.ch, g.count), Decode(q, g.rest).value, Decode(q, t).value;
    ThreeParts(a, b, c);
    assert Decode(q, s) == Some(a + b);
    assert Decode(q, s + t) == Some(a + (b + c));
  }

  /** A field that ends on a group boundary can be decoded without looking at what follows. */
  lemma {:induction false} DecodeAppend(q: Quoting, s: seq<byte>, t: seq<byte>)
    requires Decode(q, s).Some? && Decode(q, t).Some?
    ensures Decode(q, s + t) == Some(Decode(q, s).value + Decode(q, t).value)
    decreases |s|
  {
    if s == [] {
      assert s + t == t && [] + Decode(q, t).value == Decode(q, t).value;
    } else {
      DecodeOfNonEmpty(q, s);
      hide Decode;
      hide DecodeGroup;
      DecodeAppend(q, DecodeGroup(q, s).value.rest, t);
      DecodeAppendStep(q, s, t);
    }
  }

  lemma {:induction false} OneFieldMore(q: Quoting, fields: seq<seq<byte>>, field: seq<byte>)
    requires DecodeAll(q, fields).Some? && Decode(q, field).Some?
    ensures DecodeAll(q, fields + [field]) == Some(DecodeAll(q, fields).value + Decode(q, field).value)
  {
    hide Decode;
    if fields == [] {
      assert fields + [field] == [field] && [field][1..] == [];
      assert Decode(q, field).value + [] == Decode(q, field).value == [] + Decode(q, field).value;
    } else {
      OneFieldMore(q, fields[1..], field);
      assert (fields + [field])[1..] == fields[1..] + [field];
      assert Decode(q, fields[0]).value + (DecodeAll(q, fields[1..]).value + Decode(q, field).value)
             == Decode(q, fields[0]).value + DecodeAll(q, fields[1..]).value + Decode(q, field).value;
    }
  }

  lemma CtlInvolution(ch: byte)
    ensures Ctl(Ctl(ch)) == ch && (ch < 128 ==> Ctl(ch) < 128)
    ensures ch % 128 < 32 || ch % 128 == 127 ==>
              Graphic(Ctl(ch)) && (64 <= Ctl(ch) % 128 <= 95 || Ctl(ch) % 128 == 63)
  {
    var high := ch / 128;
    assert Ctl(ch) / 128 == high;
    assert Ctl(ch) % 128 == if ch % 128 >= 64 then ch % 128 - 64 else ch % 128 + 64;
  }

  /** Control prefixing alone, on a byte `b` whose eighth bit has been dealt with. */
  lemma ControlRoundTrip(q: Quoting, b: byte, body: seq<byte>)
    requires Sound(q)
    requires if b % 128 < 32 || b % 128 == 127 then body == [q.ctlq, Ctl(b)]
             else (body == [q.ctlq, b] && PrefixChar(b % 128)) || (body == [b] && b != q.ctlq)
    ensures DecodeControl(q, body[0], body[1..]) == Some(Group(b, 1, []))
  {
    hide Ctl;
    CtlInvolution(b);
    if |body| == 2 {
      var operand := body[1];
      assert body[1..] == [operand] && [operand][1..] == [];
      assert if b % 128 < 32 || b % 128 == 127 then Ctl(operand) == b else operand == b;
    } else {
      assert body[1..] == [];
    }
  }

  /** Every byte survives single-character encoding, whatever follows it. */
  lemma CharRoundTrip(q: Quoting, a: byte)
    requires Sound(q)
    ensures EncodeChar(q, a) != []
    ensures DecodeChar(q, EncodeChar(q, a)) == Some(Group(a, 1, []))
    ensures q.rptflg ==> EncodeChar(q, a)[0] != q.rptq
  {
    var a7: byte := a % 128;
    var eighth := q.ebqflg && a >= 128;
    var b: byte := if eighth then a7 else a;
    var e := EncodeChar(q, a);
    var body := if eighth then e[1..] else e;
    assert b % 128 == a7;
    ControlRoundTrip(q, b, body);
    if eighth {
      assert e[1] == body[0] && e[2..] == body[1..] && body[0] % 128 == body[0];
    }
  }

  /** The next group of a field, moved from what is to come to what is done. */
  lemma DecodeStep(q: Quoting, s: seq<byte>, done: seq<byte>)
    requires s != [] && Decode(q, s).Some?
    ensures DecodeGroup(q, s).Some?
    ensures var g := DecodeGroup(q, s).value;
            && Decode(q, g.rest).Some?
            && done + Rep(g.ch, g.count) + Decode(q, g.rest).value == done + Decode(q, s).value
  {
    var g := DecodeGroup(q, s).value;
    assert done + Rep(g.ch, g.count) + Decode(q, g.rest).value == done + (Rep(g.ch, g.count) + Decode(q, g.rest).value);
  }

  /** A run the sender may write decodes to exactly that many copies of its byte. */
  lemma RunRoundTrip(q: Quoting, a: byte, n: nat)
    requires Sound(q) && 1 <= n <= 94 && (n > 1 ==> q.rptflg)
    ensures Decode(q, EncodeRun(q, a, n)) == Some(Rep(a, n))
  {
    CharRoundTrip(q, a);
    var e := EncodeChar(q, a);
    assert DecodeGroup(q, e) == Some(Group(a, 1, []));
    assert Decode(q, e) == Some(Rep(a, 1)) by {
      assert Rep(a, 1) + [] == Rep(a, 1);
    }
    if n == 2 {
      DecodeAppend(q, e, e);
      assert Rep(a, 1) + Rep(a, 1) == Rep(a, 2);
    } else if n > 2 {
      var s := [q.rptq, ToChar(n)] + e;
      assert s[2..] == e && UnChar(s[1]) == n;
      assert Rep(a, n) + [] == Rep(a, n);
    }
  }

  /** Fit for the channel: printable, and without an eighth bit where eighth bits are prefixed. */
  predicate ClearChar(q: Quoting, ch: byte) {
    Graphic(ch) && (q.ebqflg ==> ch < 128)
  }

  predicate Clear(q: Quoting, s: seq<byte>) {
    forall i :: 0 <= i < |s| ==> ClearChar(q, s[i])
  }

  lemma PrefixIsClear(q: Quoting, ch: byte)
    requires PrefixChar(ch)
    ensures ClearChar(q, ch)
  {
  }

  lemma CharIsClear(q: Quoting, a: byte)
    requires Sound(q)
    ensures Clear(q, EncodeChar(q, a))
    ensures 1 <= |EncodeChar(q, a)| <= (if q.ebqflg then 3 else 2)
  {
    hide Ctl;
    var a7: byte := a % 128;
    var eighth := q.ebqflg && a >= 128;
    var b: byte := if eighth then a7 else a;
    assert b % 128 == a7;
    var body := if a7 < 32 || a7 == 127 then [q.ctlq, Ctl(b)]
                else if a7 == q.ctlq || (q.ebqflg && a7 == q.ebq) || (q.rptflg && a7 == q.rptq) then [q.ctlq, b]
                else [b];
    assert Clear(q, body) by {
      CtlInvolution(b);
      PrefixIsClear(q, q.ctlq);
      assert a7 < 32 || a7 == 127 || ClearChar(q, b);
      hide ClearChar;
    }
    if eighth {
      PrefixIsClear(q, q.ebq);
      hide ClearChar;
      ClearAppend(q, [q.ebq], body);
    } else {
      assert [] + body == body;
    }
  }

  /** Nothing the sender writes can be mistaken for NUL, SOH, LF or CR. */
  lemma RunIsClear(q: Quoting, a: byte, n: nat)
    requires Sound(q) && n <= 94 && (n > 1 ==> q.rptflg)
    ensures Clear(q, EncodeRun(q, a, n))
    ensures 1 <= |EncodeChar(q, a)| <= (if q.ebqflg then 3 else 2)
    ensures |EncodeRun(q, a, n)| <= (if q.ebqflg then 6 else 4)
    ensures n != 2 ==> |EncodeRun(q, a, n)| <= 5
  {
    hide EncodeChar;
    CharIsClear(q, a);
    if n == 2 {
      ClearAppend(q, EncodeChar(q, a), EncodeChar(q, a));
    } else if n > 2 {
      PrefixIsClear(q, q.rptq);
      assert ClearChar(q, ToChar(n));
      hide ClearChar;
      ClearAppend(q, [q.rptq, ToChar(n)], EncodeChar(q, a));
    }
  }

  lemma RunSize(q: Quoting, a: byte, n: nat)
    requires Sound(q) && 1 <= n <= 94 && (n > 1 ==> q.rptflg)
    ensures 1 <= |EncodeRun(q, a, n)| <= 3 * n
  {
    hide EncodeChar;
    CharIsClear(q, a);
  }

  /** What the sender writes for some run. */
  ghost predicate IsRun(q: Quoting, s: seq<byte>) {
    exists a: byte, n: nat :: 1 <= n <= 94 && (n > 1 ==> q.rptflg) && s == EncodeRun(q, a, n)
  }

  /** Bytes that are written with a control prefix. */
  predicate Prefixed(q: Quoting, a7: int) {
    a7 < 32 || a7 == 127 || a7 == q.ctlq || (q.ebqflg && a7 == q.ebq) || (q.rptflg && a7 == q.rptq)
  }

  /**
   The longest run takes six characters, and only a run of exactly two bytes does,
   with eighth-bit prefixing on, the eighth bit set and a control prefix needed.
   */
  lemma RunOfSix(q: Quoting, a: byte, n: nat)
    requires 1 <= n <= 94 && (n > 1 ==> q.rptflg)
    ensures |EncodeRun(q, a, n)| == 6 <==> n == 2 && q.ebqflg && a >= 128 && Prefixed(q, a % 128)
  {
    var a7 := a % 128;
    assert |EncodeChar(q, a)| == (if q.ebqflg && a >= 128 then 1 else 0) + (if Prefixed(q, a7) then 2 else 1);
    hide EncodeChar;
    hide Prefixed;
  }

  /** Cutting the field at `at` leaves two good fields that stand for the same bytes. */
  ghost predicate Cuttable(q: Quoting, field: seq<byte>, at: nat) {
    && at <= |field|
    && |field[at..]| <= (if q.ebqflg then 6 else 4) && IsRun(q, field[at..])
    && Clear(q, field[..at]) && Clear(q, field[at..])
    && Decode(q, field).Some? && Decode(q, field[..at]).Some? && Decode(q, field[at..]).Some?
    && Decode(q, field[..at]).value + Decode(q, field[at..]).value == Decode(q, field).value
  }

  /**
   A run appended to a good field leaves it good, and the field may be cut
   before the run or, when the run is two single characters, between them.
   */
  lemma CutAtRun(q: Quoting, x: seq<byte>, a: byte, n: nat, y: seq<byte>, cut: nat)
    requires Sound(q) && 1 <= n <= 94 && (n > 1 ==> q.rptflg)
    requires Clear(q, x) && Decode(q, x).Some?
    requires y == x + EncodeRun(q, a, n)
    requires cut == |x| || (n == 2 && cut == |x| + |EncodeChar(q, a)|)
    ensures Decode(q, y) == Some(Decode(q, x).value + Rep(a, n)) && Clear(q, y)
    ensures 1 <= |y| - cut <= 6 && Cuttable(q, y, cut)
  {
    hide EncodeChar;
    hide Decode;
    var run := EncodeRun(q, a, n);
    RunIsClear(q, a, n);
    RunSize(q, a, n);
    RunRoundTrip(q, a, n);
    ClearAppend(q, x, run);
    DecodeAppend(q, x, run);
    assert IsRun(q, run);
    if cut == |x| {
      assert y[..cut] == x && y[cut..] == run;
    } else {
      CutBetween(q, x, a, y);
      assert y[cut..] == EncodeRun(q, a, 1);
      assert Rep(a, 1) + Rep(a, 1) == Rep(a, 2);
      assert Decode(q, x).value + Rep(a, 1) + Rep(a, 1) == Decode(q, x).value + (Rep(a, 1) + Rep(a, 1));
    }
  }

  /** The cut between the two characters of a short run. */
  lemma CutBetween(q: Quoting, x: seq<byte>, a: byte, y: seq<byte>)
    requires Sound(q) && Clear(q, x) && Decode(q, x).Some?
    requires y == x + (EncodeChar(q, a) + EncodeChar(q, a))
    ensures var cut := |x| + |EncodeChar(q, a)|;
            && cut <= |y| && Clear(q, y[..cut]) && Clear(q, y[cut..])
            && y[cut..] == EncodeChar(q, a) && 1 <= |y[cut..]| <= 3 && (!q.ebqflg ==> |y[cut..]| <= 2)
            && Decode(q, y[..cut]) == Some(Decode(q, x).value + Rep(a, 1))
            && Decode(q, y[cut..]) == Some(Rep(a, 1))
  {
    hide EncodeChar;
    hide Decode;
    var one := EncodeChar(q, a);
    RunRoundTrip(q, a, 1);
    RunIsClear(q, a, 1);
    ClearAppend(q, x, one);
    DecodeAppend(q, x, one);
    assert y[..|x| + |one|] == x + one && y[|x| + |one|..] == one;
  }

  lemma ClearAppend(q: Quoting, s: seq<byte>, t: seq<byte>)
    requires Clear(q, s) && Clear(q, t)
    ensures Clear(q, s + t)
  {
  }

  lemma ClearIsClean(q: Quoting, s: seq<byte>)
    requires Clear(q, s)
    ensures AllGraphic(s) && 0 !in s
  {
  }
}
