/**
 Attribute packets: numbers as decimal strings, the string `sattr` builds and
 what `gattr` reads out of it.
 */
module Attributes {
  import opened Bytes

  const DATE_MAX: nat := 20
  const SIZEBUFL: nat := 32
  const ATTRLEN: nat := 48

  // ---- Decimal numbers ----

  predicate Digit(ch: byte) {
    48 <= ch <= 57
  }

  function Decimal(n: nat): seq<byte> {
    if n < 10 then [48 + n] else Decimal(n / 10) + [48 + n % 10]
  }

  function Pow10(e: nat): nat {
    if e == 0 then 1 else 10 * Pow10(e - 1)
  }

  /** The number a digit string stands for, entered with `n`; anything else ends it. */
  function DigitsValue(s: seq<byte>, n: nat): nat {
    if s == [] || !Digit(s[0]) then n else DigitsValue(s[1..], n * 10 + (s[0] - 48))
  }

  /** Leading spaces are skipped. */
  function NumberValue(s: seq<byte>): nat {
    if s != [] && s[0] == SP then NumberValue(s[1..]) else DigitsValue(s, 0)
  }

  lemma {:induction false} DigitsValueOfDecimal(n: nat, rest: seq<byte>)
    ensures DigitsValue(Decimal(n) + rest, 0) == DigitsValue(rest, n)
    ensures Digit(Decimal(n)[0])
    decreases n
  {
    if n < 10 {
      assert ([48 + n] + rest)[1..] == rest;
    } else {
      var last: byte := 48 + n % 10;
      assert Decimal(n) + rest == Decimal(n / 10) + ([last] + rest);
      DigitsValueOfDecimal(n / 10, [last] + rest);
      assert ([last] + rest)[1..] == rest;
    }
  }

  /** Reading back a number that was written gives the number. */
  lemma NumberRoundTrip(n: nat)
    ensures NumberValue(Decimal(n)) == n
  {
    DigitsValueOfDecimal(n, []);
    assert Decimal(n) + [] == Decimal(n);
  }

  lemma {:induction false} DecimalLength(n: nat, e: nat)
    requires e >= 1
    ensures 1 <= |Decimal(n)|
    ensures n < Pow10(e) <==> |Decimal(n)| <= e
    ensures forall i :: 0 <= i < |Decimal(n)| ==> Digit(Decimal(n)[i])
    decreases n
  {
    assert Pow10(e) == 10 * Pow10(e - 1);
    if n < 10 {
      Pow10Positive(e - 1);
    } else if e == 1 {
      DecimalLength(n / 10, 1);
    } else {
      DecimalLength(n / 10, e - 1);
    }
  }

  lemma {:induction false} Pow10Positive(e: nat)
    ensures Pow10(e) >= 1
  {
    if e > 0 {
      Pow10Positive(e - 1);
    }
  }

  /** stringnum on a NUL-terminated string. */
  method StringNum(s: seq<byte>) returns (n: nat)
    requires 0 in s
    ensures n == NumberValue(CString(s))
  {
    ghost var t := CString(s);
    var i := 0;
    assert t[0..] == t;
    while s[i] == SP
      invariant 0 <= i <= |t| < |s| && NumberValue(t[i..]) == NumberValue(t)
      decreases |t| - i
    {
      assert t[i..][1..] == t[i + 1..];
      i := i + 1;
    }
    n := 0;
    assert i < |t| ==> t[i..][0] == s[i];
    while s[i] >= 48 && s[i] <= 57
      invariant 0 <= i <= |t| < |s| && DigitsValue(t[i..], n) == NumberValue(t)
      decreases |t| - i
    {
      assert t[i..][1..] == t[i + 1..];
      n := n * 10 + (s[i] as int - 48);
      i := i + 1;
    }
  }

  /** numstring: the digits from the back of the buffer, then moved to its front. */
  method NumString(number: nat, buf: array<byte>) returns (ok: bool)
    requires buf.Length >= 3
    modifies buf
    ensures ok <==> number < Pow10(buf.Length - 2)
    ensures ok ==> 0 in buf[..] && CString(buf[..]) == Decimal(number)
  {
    ghost var digits := Decimal(number);
    var buflen := buf.Length;
    buf[buflen - 1] := 0;
    var n := number;
    var i := buflen - 2;
    DecimalLength(number, buflen - 2);
    while i > 0
      invariant 0 <= i <= buflen - 2 && buf[buflen - 1] == 0
      invariant i < buflen - 2 ==> n > 0
      invariant digits == Decimal(n) + buf[i + 1..buflen - 1]
    {
      DecimalLength(n, 1);
      buf[i] := 48 + n % 10;
      assert buf[i..buflen - 1] == [buf[i]] + buf[i + 1..buflen - 1];
      n := n / 10;
      if n == 0 {
        break;
      }
      i := i - 1;
    }
    if n != 0 {
      DecimalLength(n, 1);
      return false;
    }
    assert i > 0 && digits == buf[i..buflen - 1];
    ToFront(buf, i, digits);
    return true;
  }

  /** Moves the string that starts at `i` to the front of the buffer. */
  method ToFront(buf: array<byte>, i: nat, ghost digits: seq<byte>)
    requires 0 < i < buf.Length && buf[i..buf.Length - 1] == digits && buf[buf.Length - 1] == 0
    requires 0 !in digits
    modifies buf
    ensures 0 in buf[..] && CString(buf[..]) == digits
  {
    ghost var text := digits + [0];
    assert forall t :: 0 <= t < |text| ==> buf[i + t] == buf[i..][t] && buf[i..][t] == text[t];
    var j := 0;
    buf[j] := buf[i + j];
    while buf[j] != 0
      invariant 0 <= j < |text|
      invariant forall t :: 0 <= t <= j ==> buf[t] == text[t]
      invariant forall t :: j < t < |text| ==> buf[i + t] == text[t]
      decreases |text| - j
    {
      j := j + 1;
      buf[j] := buf[i + j];
    }
    buf[j] := 0;
    assert j == |digits|;
    assert buf[..j] == digits;
    CStringEndsAt(buf[..], j);
  }

  // ---- Attribute packets ----

  /** The state gattr builds up: the transfer mode (-1 none, 0 text, 1 binary), the date and the two sizes. */
  datatype Attrs = Attrs(mode: int, filedate: seq<byte>, fsize: nat, fsizek: nat)

  const NO_ATTRS: Attrs := Attrs(-1, [], 0, 0)

  function Min(a: nat, b: nat): nat {
    if a < b then a else b
  }

  /** What one attribute with tag `tag` and value `v` changes. */
  function Note(a: Attrs, tag: byte, v: seq<byte>): Attrs {
    var head := v[..Min(|v|, SIZEBUFL)];
    if tag == 33 then a.(fsizek := NumberValue(head))                    // '!'
    else if tag == 34 then                                               // '"'
      a.(mode := if head == [] then a.mode else if head[0] == 65 then 0 else if head[0] == 66 then 1 else a.mode)
    else if tag == 35 then a.(filedate := v[..Min(|v|, DATE_MAX)])       // '#'
    else if tag == 49 then a.(fsize := NumberValue(head))                // '1'
    else a
  }

  /** The attributes in a data field, or `None` if a length points past its end. */
  function ReadAttrs(s: seq<byte>, a: Attrs): Option<Attrs>
    decreases |s|
  {
    if s == [] then Some(a)
    else if |s| < 2 || 2 + UnChar(s[1]) > |s| then None
    else
      var aln := UnChar(s[1]);
      ReadAttrs(s[2 + aln..], Note(a, s[0], s[2..2 + aln]))
  }

  function OneAttribute(tag: byte, v: seq<byte>): seq<byte> {
    [tag, ToChar(|v|)] + v
  }

  /** The attribute string of sattr; a negative length means the file system gave none. */
  function AttrString(binary: bool, length: int, date: seq<byte>): seq<byte> {
    var kind := if binary then OneAttribute(34, [66, 56])
                else OneAttribute(34, [65, 77, 74]) + OneAttribute(42, [65]);
    var size := if 0 <= length < Pow10(14) && |kind| + |Decimal(length)| < ATTRLEN - 3
                then OneAttribute(49, Decimal(length)) else [];
    var when := if date != [] && |kind| + |size| + |date| < ATTRLEN - 3 then OneAttribute(35, date) else [];
    kind + size + when + [64, 32]
  }

  lemma AttributeIsRead(tag: byte, v: seq<byte>, rest: seq<byte>, a: Attrs)
    requires |v| <= 94
    ensures ReadAttrs(OneAttribute(tag, v) + rest, a) == ReadAttrs(rest, Note(a, tag, v))
  {
    var s := OneAttribute(tag, v) + rest;
    assert UnChar(ToChar(|v|)) == |v|;
    assert s[1] == ToChar(|v|) && s[2..2 + |v|] == v && s[2 + |v|..] == rest;
  }

  /** The end marker carries no attribute. */
  lemma EndIsRead(a: Attrs)
    ensures ReadAttrs([64, 32], a) == Some(a)
  {
    assert UnChar(32) == 0;
    var s: seq<byte> := [64, 32];
    assert s[2..] == [] && s[2..2] == [];
  }

  lemma SizeAttribute(length: nat, a: Attrs)
    requires length < Pow10(14)
    ensures |Decimal(length)| <= 14
    ensures Note(a, 49, Decimal(length)) == a.(fsize := length)
  {
    hide Decimal;
    hide NumberValue;
    hide Pow10;
    DecimalLength(length, 14);
    NumberRoundTrip(length);
    assert Decimal(length)[..|Decimal(length)|] == Decimal(length);
  }

  /**
   gattr recovers what sattr announced: the transfer mode, the length of every
   file below ten to the fourteenth, and every date the buffer can hold.
   */
  lemma AttributeRoundTrip(binary: bool, length: int, date: seq<byte>)
    requires |date| < DATE_MAX && length < Pow10(14)
    ensures ReadAttrs(AttrString(binary, length, date), NO_ATTRS) ==
            Some(Attrs(if binary then 1 else 0, date, if length >= 0 then length else 0, 0))
  {
    hide ReadAttrs;
    hide OneAttribute;
    hide Decimal;
    hide NumberValue;
    var a0 := NO_ATTRS.(mode := if binary then 1 else 0);
    var a1 := if length >= 0 then a0.(fsize := length) else a0;
    AttrStringParts(binary, length, date);
    var size := if length >= 0 then OneAttribute(49, Decimal(length)) else [];
    var when := if date != [] then OneAttribute(35, date) else [];
    KindIsRead(binary, size + (when + [64, 32]));
    if length >= 0 {
      SizeAttribute(length, a0);
      AttributeIsRead(49, Decimal(length), when + [64, 32], a0);
    } else {
      assert size + (when + [64, 32]) == when + [64, 32];
    }
    if date != [] {
      AttributeIsRead(35, date, [64, 32], a1);
      assert date[..|date|] == date;
    } else {
      assert when + [64, 32] == [64, 32];
    }
    EndIsRead(a1.(filedate := date));
  }

  function Kind(binary: bool): seq<byte> {
    if binary then OneAttribute(34, [66, 56]) else OneAttribute(34, [65, 77, 74]) + OneAttribute(42, [65])
  }

  lemma KindIsRead(binary: bool, rest: seq<byte>)
    ensures ReadAttrs(Kind(binary) + rest, NO_ATTRS) == ReadAttrs(rest, NO_ATTRS.(mode := if binary then 1 else 0))
  {
    hide ReadAttrs;
    hide OneAttribute;
    if binary {
      AttributeIsRead(34, [66, 56], rest, NO_ATTRS);
    } else {
      var other := OneAttribute(42, [65]);
      assert Kind(binary) + rest == OneAttribute(34, [65, 77, 74]) + (other + rest);
      AttributeIsRead(34, [65, 77, 74], other + rest, NO_ATTRS);
      AttributeIsRead(42, [65], rest, NO_ATTRS.(mode := 0));
    }
  }

  /** Both optional attributes always fit. */
  lemma AttrStringParts(binary: bool, length: int, date: seq<byte>)
    requires |date| < DATE_MAX && length < Pow10(14)
    ensures var size := if length >= 0 then OneAttribute(49, Decimal(length)) else [];
            var when := if date != [] then OneAttribute(35, date) else [];
            AttrString(binary, length, date) == Kind(binary) + (size + (when + [64, 32]))
  {
    if length >= 0 {
      DecimalLength(length, 14);
    }
    hide Decimal;
    hide Pow10;
  }

  // ---- What gattr makes of any list of attributes ----

  datatype Attribute = Attribute(tag: byte, value: seq<byte>)

  predicate Fitting(list: seq<Attribute>) {
    forall i :: 0 <= i < |list| ==> |list[i].value| <= 94
  }

  function Written(list: seq<Attribute>): seq<byte> {
    if list == [] then [] else OneAttribute(list[0].tag, list[0].value) + Written(list[1..])
  }

  /** The value of the last attribute with this tag. */
  function Latest(list: seq<Attribute>, tag: byte): Option<seq<byte>> {
    if list == [] then None
    else if list[|list| - 1].tag == tag then Some(list[|list| - 1].value)
    else Latest(list[..|list| - 1], tag)
  }

  /** The last file type that is text or binary. */
  function LatestType(list: seq<Attribute>): Option<byte> {
    if list == [] then None
    else
      var x := list[|list| - 1];
      if x.tag == 34 && x.value != [] && x.value[0] in {65, 66} then Some(x.value[0])
      else LatestType(list[..|list| - 1])
  }

  function NumberOr(v: Option<seq<byte>>, other: nat): nat {
    if v.Some? then NumberValue(v.value[..Min(|v.value|, SIZEBUFL)]) else other
  }

  lemma {:induction false} WrittenAppend(s: seq<Attribute>, t: seq<Attribute>)
    ensures Written(s + t) == Written(s) + Written(t)
  {
    hide OneAttribute;
    if s == [] {
      assert s + t == t;
    } else {
      assert (s + t)[1..] == s[1..] + t;
      WrittenAppend(s[1..], t);
    }
  }

  lemma NothingIsRead(a: Attrs)
    ensures ReadAttrs([], a) == Some(a)
  {
  }

  lemma {:induction false} ReadInParts(list: seq<Attribute>, rest: seq<byte>, a: Attrs) returns (b: Attrs)
    requires Fitting(list)
    ensures ReadAttrs(Written(list), a) == Some(b)
    ensures ReadAttrs(Written(list) + rest, a) == ReadAttrs(rest, b)
  {
    hide OneAttribute;
    hide Note;
    hide ReadAttrs;
    if list == [] {
      b := a;
      NothingIsRead(a);
      assert Written(list) + rest == rest;
    } else {
      var first, others := OneAttribute(list[0].tag, list[0].value), Written(list[1..]);
      AttributeIsRead(list[0].tag, list[0].value, others, a);
      AttributeIsRead(list[0].tag, list[0].value, others + rest, a);
      ThreeParts(first, others, rest);
      b := ReadInParts(list[1..], rest, Note(a, list[0].tag, list[0].value));
    }
  }

  lemma OneWritten(x: Attribute)
    ensures Written([x]) == OneAttribute(x.tag, x.value)
  {
    hide OneAttribute;
    assert [x][1..] == [];
  }

  /** The last date, length in bytes, length in kilobytes, and type of those that say text or binary. */
  function LastOnes(list: seq<Attribute>): Attrs {
    var date, kind := Latest(list, 35), LatestType(list);
    Attrs(if kind.None? then -1 else if kind.value == 65 then 0 else 1,
          if date.None? then [] else date.value[..Min(|date.value|, DATE_MAX)],
          NumberOr(Latest(list, 49), 0), NumberOr(Latest(list, 33), 0))
  }

  lemma OneMoreCounts(list: seq<Attribute>, x: Attribute)
    ensures LastOnes(list + [x]) == Note(LastOnes(list), x.tag, x.value)
  {
    hide NumberValue;
    assert (list + [x])[..|list|] == list && (list + [x])[|list|] == x;
  }

  lemma OneMoreIsRead(list: seq<Attribute>, x: Attribute, a: Attrs)
    requires Fitting(list) && |x.value| <= 94 && ReadAttrs(Written(list), NO_ATTRS) == Some(a)
    ensures ReadAttrs(Written(list + [x]), NO_ATTRS) == Some(Note(a, x.tag, x.value))
  {
    hide Note;
    hide Written;
    WrittenAppend(list, [x]);
    OneWritten(x);
    var b := ReadInParts(list, Written([x]), NO_ATTRS);
    hide OneAttribute;
    assert Written([x]) == OneAttribute(x.tag, x.value) + [];
    AttributeIsRead(x.tag, x.value, [], a);
  }

  /** Of each attribute gattr knows the last one counts; all others are skipped. */
  lemma {:induction false} LastOnesCount(list: seq<Attribute>)
    requires Fitting(list)
    ensures ReadAttrs(Written(list), NO_ATTRS) == Some(LastOnes(list))
    decreases |list|
  {
    if list == [] {
      assert Written(list) == [];
    } else {
      hide LastOnes;
      hide ReadAttrs;
      hide Written;
      hide Note;
      var before, x := list[..|list| - 1], list[|list| - 1];
      assert list == before + [x];
      LastOnesCount(before);
      OneMoreIsRead(before, x, LastOnes(before));
      OneMoreCounts(before, x);
    }
  }

  /** An attribute gattr does not know changes nothing, wherever it stands. */
  lemma UnknownIsSkipped(before: seq<Attribute>, x: Attribute, after: seq<Attribute>)
    requires Fitting(before) && |x.value| <= 94 && Fitting(after)
    requires x.tag !in {33, 34, 35, 49}
    ensures ReadAttrs(Written(before + [x] + after), NO_ATTRS) == ReadAttrs(Written(before + after), NO_ATTRS)
  {
    WrittenAppend(before, after);
    WrittenAppend(before, [x] + after);
    WrittenAppend([x], after);
    OneWritten(x);
    assert before + [x] + after == before + ([x] + after);
    hide Written;
    var rest := Written(after);
    var a := ReadInParts(before, rest, NO_ATTRS);
    var b := ReadInParts(before, OneAttribute(x.tag, x.value) + rest, NO_ATTRS);
    AttributeIsRead(x.tag, x.value, rest, a);
    hide OneAttribute;
    hide ReadAttrs;
  }

  // ---- Over a line with parity ----

  lemma CrossesAppend(parity: bool, s: seq<byte>, t: seq<byte>)
    requires Crosses(parity, s) && Crosses(parity, t)
    ensures Crosses(parity, s + t)
  {
  }

  lemma OneAttributeCrosses(parity: bool, tag: byte, v: seq<byte>)
    requires 0 < tag < 128 && Crosses(parity, v) && |v| <= 94
    ensures Crosses(parity, OneAttribute(tag, v)) && |OneAttribute(tag, v)| == |v| + 2
  {
    CrossesAppend(parity, [tag, ToChar(|v|)], v);
  }

  lemma {:induction false} DecimalCrosses(parity: bool, n: nat)
    ensures Crosses(parity, Decimal(n))
  {
    if n >= 10 {
      DecimalCrosses(parity, n / 10);
      CrossesAppend(parity, Decimal(n / 10), [48 + n % 10]);
    }
  }

  lemma KindCrosses(parity: bool, binary: bool)
    ensures Crosses(parity, Kind(binary)) && Crosses(parity, [64, 32]) && Crosses(parity, [])
  {
    OneAttributeCrosses(parity, 34, [66, 56]);
    OneAttributeCrosses(parity, 34, [65, 77, 74]);
    OneAttributeCrosses(parity, 42, [65]);
    hide OneAttribute;
    CrossesAppend(parity, OneAttribute(34, [65, 77, 74]), OneAttribute(42, [65]));
  }

  /** Unless the date has eighth bits, an attribute string crosses every line, with parity or without, as it is. */
  lemma AttributesCross(parity: bool, binary: bool, length: int, date: seq<byte>)
    requires |date| < DATE_MAX && length < Pow10(14) && Crosses(parity, date)
    ensures Crosses(parity, AttrString(binary, length, date)) && |AttrString(binary, length, date)| < 2 * ATTRLEN
  {
    AttrStringParts(binary, length, date);
    KindCrosses(parity, binary);
    if length >= 0 {
      DecimalLength(length, 14);
      DecimalCrosses(parity, length);
    }
    hide Decimal;
    hide Pow10;
    hide AttrString;
    hide Crosses;
    var size := if length >= 0 then OneAttribute(49, Decimal(length)) else [];
    var when := if date != [] then OneAttribute(35, date) else [];
    if length >= 0 {
      OneAttributeCrosses(parity, 49, Decimal(length));
    }
    if date != [] {
      OneAttributeCrosses(parity, 35, date);
    }
    CrossesAppend(parity, when, [64, 32]);
    CrossesAppend(parity, size, when + [64, 32]);
    CrossesAppend(parity, Kind(binary), size + (when + [64, 32]));
  }

  /** A length announced only in kilobytes is never used: the zero it starts with already counts as a length. */
  function FileSize(a: Attrs): int {
    if a.fsize > -1 then a.fsize else a.fsizek * 1024
  }

  lemma KilobytesAreIgnored(v: seq<byte>)
    requires |v| <= 94
    ensures ReadAttrs(OneAttribute(33, v), NO_ATTRS).Some?
    ensures FileSize(ReadAttrs(OneAttribute(33, v), NO_ATTRS).value) == 0
  {
    AttributeIsRead(33, v, [], NO_ATTRS);
    assert OneAttribute(33, v) + [] == OneAttribute(33, v);
  }

  /** gattr: reads the attributes of a data field. */
  method GAttr(s: seq<byte>) returns (a: Attrs)
    requires 0 !in s && ReadAttrs(s, NO_ATTRS).Some?
    ensures Some(a) == ReadAttrs(s, NO_ATTRS)
  {
    hide Note;
    hide ReadAttrs;
    hide UnChar;
    a := NO_ATTRS;
    var i := 0;
    assert s[0..] == s;
    while i < |s|
      invariant i <= |s| && ReadAttrs(s[i..], a) == ReadAttrs(s, NO_ATTRS)
    {
      OneAttributeOff(s, i, a);
      var c := s[i];
      var aln: int := UnChar(s[i + 1]);
      i := i + 2;
      a := TakeAttribute(a, c, s[i..i + aln]);
      i := i + aln;
    }
    AllAttributesOff(s, a);
  }

  lemma OneAttributeOff(s: seq<byte>, i: nat, a: Attrs)
    requires i < |s| && ReadAttrs(s[i..], a).Some?
    ensures i + 2 <= i + 2 + UnChar(s[i + 1]) <= |s|
    ensures var next := i + 2 + UnChar(s[i + 1]);
            ReadAttrs(s[i..], a) == ReadAttrs(s[next..], Note(a, s[i], s[i + 2..next]))
  {
    hide Note;
    var next := i + 2 + UnChar(s[i..][1]);
    assert s[i..][1] == s[i + 1];
    assert s[i..][next - i..] == s[next..] && s[i..][2..next - i] == s[i + 2..next];
  }

  lemma AllAttributesOff(s: seq<byte>, a: Attrs)
    ensures ReadAttrs(s[|s|..], a) == Some(a)
  {
  }

  /** The switch of gattr. */
  method TakeAttribute(a: Attrs, c: byte, value: seq<byte>) returns (r: Attrs)
    requires 0 !in value
    ensures r == Note(a, c, value)
  {
    r := a;
    if c == 33 || c == 34 || c == 49 {
      var sizebuf := value[..Min(|value|, SIZEBUFL)] + [0];
      CStringEndsAt(sizebuf, |sizebuf| - 1);
      assert sizebuf[..|sizebuf| - 1] == value[..Min(|value|, SIZEBUFL)];
      if c == 33 {
        var fsizek := StringNum(sizebuf);
        r := r.(fsizek := fsizek);
      } else if c == 49 {
        var fsize := StringNum(sizebuf);
        r := r.(fsize := fsize);
      } else if sizebuf[0] == 65 {
        r := r.(mode := 0);
      } else if sizebuf[0] == 66 {
        r := r.(mode := 1);
      }
    } else if c == 35 {
      r := r.(filedate := value[..Min(|value|, DATE_MAX)]);
    }
  }

  /** sattr: builds the attribute string from what the file system says about the file. */
  method SAttr(binary: bool, length: int, date: seq<byte>) returns (s: seq<byte>)
    ensures s == AttrString(binary, length, date)
  {
    hide Decimal;
    hide Pow10;
    hide OneAttribute;
    s := TypeAttribute(binary);
    if length > -1 {
      var size := LengthAttribute(length, |s|);
      s := s + size;
    }
    if date != [] {
      if |s| + |date| < ATTRLEN - 3 {
        var when := DateAttribute(date);
        s := s + when;
      }
    }
    s := s + [64, 32];
  }

  /** Binary with eight-bit bytes, or text with its encoding. */
  method TypeAttribute(binary: bool) returns (s: seq<byte>)
    ensures s == Kind(binary)
  {
    s := [34];
    if binary {
      s := s + [ToChar(2), 66, 56];
    } else {
      s := s + [ToChar(3), 65, 77, 74];
      s := s + [42, ToChar(1), 65];
    }
  }

  method DateAttribute(date: seq<byte>) returns (s: seq<byte>)
    ensures s == OneAttribute(35, date)
  {
    s := [35, ToChar(|date|)] + date;
  }

  /** The attribute for the length in bytes, if the number can be written and fits. */
  method LengthAttribute(length: nat, used: nat) returns (size: seq<byte>)
    ensures size == if length < Pow10(14) && used + |Decimal(length)| < ATTRLEN - 3
                    then OneAttribute(49, Decimal(length)) else []
  {
    hide Decimal;
    hide Pow10;
    hide CString;
    var lenbuf := new byte[16];
    var ok := NumString(length, lenbuf);
    if ok {
      var p := Text(lenbuf);
      if used + |p| < ATTRLEN - 3 {
        return [49, ToChar(|p|)] + p;
      }
    }
    return [];
  }

  /** The NUL-terminated string at the front of a buffer. */
  method Text(buf: array<byte>) returns (p: seq<byte>)
    requires 0 in buf[..]
    ensures p == CString(buf[..])
  {
    var i := 0;
    while buf[i] != 0
      invariant 0 <= i < buf.Length && 0 !in buf[..i]
      decreases buf.Length - i
    {
      i := i + 1;
    }
    CStringEndsAt(buf[..], i);
    p := buf[..i];
  }
}
