/**
 The eight-bit characters of a Kermit packet and the character macros of the
 engine. All three macros cast to an unsigned char, so they wrap modulo 256.
 */
module Bytes {

  type byte = b: int | 0 <= b < 256

  const SOH: byte := 1
  const LF: byte := 10
  const CR: byte := 13
  const SP: byte := 32

  datatype Option<+T> = None | Some(value: T)

  /** A number as a printable character: exact for 0..94. */
  function ToChar(n: int): byte {
    (n % 256 + 32) % 256
  }

  /** The number a printable character stands for. */
  function UnChar(ch: byte): byte {
    (ch + 224) % 256
  }

  /** Flips bit 6: turns a control character into a printable one and back. */
  function Ctl(ch: byte): byte {
    if (ch / 64) % 2 == 1 then ch - 64 else ch + 64
  }

  /** Printable in its low seven bits, so never NUL, SOH, LF or CR. */
  predicate Graphic(ch: byte) {
    32 <= ch % 128 <= 126
  }

  predicate AllGraphic(s: seq<byte>) {
    forall i :: 0 <= i < |s| ==> Graphic(s[i])
  }

  /** The string a C pointer to `buf` denotes: everything before the first NUL. */
  function CString(buf: seq<byte>): (s: seq<byte>)
    ensures |s| <= |buf| && s == buf[..|s|]
    ensures 0 !in s
    ensures |s| < |buf| ==> buf[|s|] == 0
  {
    if buf == [] || buf[0] == 0 then [] else [buf[0]] + CString(buf[1..])
  }

  lemma {:induction false} CStringOfTerminated(s: seq<byte>, rest: seq<byte>)
    requires 0 !in s
    ensures CString(s + [0] + rest) == s
  {
    if s == [] {
      assert s + [0] + rest == [0] + rest;
    } else {
      CStringOfTerminated(s[1..], rest);
      assert (s + [0] + rest)[1..] == s[1..] + [0] + rest;
    }
  }

  lemma {:induction false} CStringEndsAt(buf: seq<byte>, n: nat)
    requires n < |buf| && buf[n] == 0 && 0 !in buf[..n]
    ensures CString(buf) == buf[..n]
  {
    assert buf == buf[..n] + [0] + buf[n + 1..];
    CStringOfTerminated(buf[..n], buf[n + 1..]);
  }

  lemma CStringOfClean(s: seq<byte>)
    requires 0 !in s
    ensures CString(s) == s
  {
  }

  lemma GraphicIsClean(s: seq<byte>)
    requires AllGraphic(s)
    ensures 0 !in s && SOH !in s && LF !in s && CR !in s && 3 !in s
  {
  }

  /** `n` copies of `ch`. */
  function Rep(ch: byte, n: nat): (s: seq<byte>)
    ensures |s| == n
    ensures forall i :: 0 <= i < n ==> s[i] == ch
  {
    seq(n, _ => ch)
  }

  lemma ThreeParts(a: seq<byte>, b: seq<byte>, c: seq<byte>)
    ensures a + b + c == a + (b + c)
  {
  }

  // ---- What a line with parity lets through ----

  /** The bytes without their eighth bits. */
  function Strip7(s: seq<byte>): (r: seq<byte>)
    ensures |r| == |s| && forall i :: 0 <= i < |s| ==> r[i] == s[i] % 128
  {
    seq<byte>(|s|, i requires 0 <= i < |s| => s[i] % 128)
  }

  /** What a reader sees of a string: with parity in use no eighth bits, and nothing behind a NUL that comes of it. */
  function Seen(parity: bool, s: seq<byte>): seq<byte> {
    if parity then CString(Strip7(s)) else s
  }

  /** No NUL, and on a line with parity no eighth bit. */
  predicate Crosses(parity: bool, s: seq<byte>) {
    forall i :: 0 <= i < |s| ==> s[i] != 0 && (parity ==> s[i] < 128)
  }

  lemma SeenAsItIs(parity: bool, s: seq<byte>)
    requires Crosses(parity, s)
    ensures Seen(parity, s) == s
  {
    assert parity ==> Strip7(s) == s;
    CStringOfClean(s);
  }

  lemma SeenIsClean(parity: bool, s: seq<byte>)
    requires 0 !in s
    ensures 0 !in Seen(parity, s) && |Seen(parity, s)| <= |s|
  {
  }

  lemma {:induction false} CStringAfter(h: seq<byte>, s: seq<byte>)
    requires 0 !in h
    ensures CString(h + s) == h + CString(s)
  {
    if h == [] {
      assert h + s == s;
    } else {
      assert (h + s)[1..] == h[1..] + s;
      CStringAfter(h[1..], s);
    }
  }
}
