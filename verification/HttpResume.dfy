/**
 tmo_http_download: a transfer that breaks off is taken up again with a ranged
 request from the byte reached so far, until it is complete or five requests
 in a row have brought nothing.
 */
module HttpResume {
  import opened Bytes

  const MAX_FAILURES: int := 5
  const EAGAIN: int := 11
  const EBADF: int := 9

  /** One call of the response callback, and what fs_write would answer to the fragment it carries. */
  datatype Call = Call(contentLength: nat, bodyFound: bool, frag: seq<byte>, stored: int)

  /** The body bytes of one response, in the fragments they came in. */
  function Body(calls: seq<Call>): seq<byte> {
    if calls == [] then []
    else (if calls[0].bodyFound then calls[0].frag else []) + Body(calls[1..])
  }

  lemma {:induction false} BodyOneMore(calls: seq<Call>, i: nat)
    requires i < |calls|
    ensures Body(calls[..i + 1]) == Body(calls[..i]) + (if calls[i].bodyFound then calls[i].frag else [])
    decreases i
  {
    if i == 0 {
      assert calls[..1] == [calls[0]];
      assert [calls[0]][1..] == [];
    } else {
      BodyOneMore(calls[1..], i - 1);
      assert calls[..i + 1][1..] == calls[1..][..i];
      assert calls[..i][1..] == calls[1..][..i - 1];
    }
  }

  /** The first length a response announces, 0 if none does. */
  function FirstLength(calls: seq<Call>): nat {
    if calls == [] then 0
    else if calls[0].contentLength != 0 then calls[0].contentLength
    else FirstLength(calls[1..])
  }

  lemma {:induction false} FirstLengthOneMore(calls: seq<Call>, i: nat)
    requires i < |calls|
    ensures FirstLength(calls[..i + 1]) ==
            if FirstLength(calls[..i]) != 0 then FirstLength(calls[..i]) else calls[i].contentLength
    decreases i
  {
    if i == 0 {
      assert calls[..1] == [calls[0]];
      assert [calls[0]][1..] == [];
    } else {
      FirstLengthOneMore(calls[1..], i - 1);
      assert calls[..i + 1][1..] == calls[1..][..i];
      assert calls[..i][1..] == calls[1..][..i - 1];
    }
  }

  /** fs_write stores no more than it is given. */
  predicate Writable(calls: seq<Call>) {
    forall i :: 0 <= i < |calls| ==> calls[i].stored <= |calls[i].frag|
  }

  /**
   The server: what the callback sees during request number `n`, which asks for the
   bytes from `at` on. Nothing is expected of it.
   */
  type Server = (nat, nat) -> seq<Call>

  ghost predicate AllWritable(serve: Server) {
    forall n, at :: Writable(serve(n, at))
  }

  /** fs_write never fails and never stores less than it is given. */
  ghost predicate Storing(serve: Server) {
    forall n, at, i :: 0 <= i < |serve(n, at)| ==> serve(n, at)[i].stored == |serve(n, at)[i].frag|
  }

  /** All bytes received in the first request and `n` resumed ones, each asking for what comes next. */
  function Gathered(serve: Server, n: nat): seq<byte> {
    if n == 0 then Body(serve(0, 0))
    else
      var before := Gathered(serve, n - 1);
      before + Body(serve(n, |before|))
  }

  lemma GatheredOneMore(serve: Server, n: nat)
    ensures Gathered(serve, 0) == Body(serve(0, 0))
    ensures Gathered(serve, n + 1) == Gathered(serve, n) + Body(serve(n + 1, |Gathered(serve, n)|))
  {
  }

  /** Where request `n` starts. */
  function StartsAt(serve: Server, n: nat): nat {
    if n == 0 then 0 else |Gathered(serve, n - 1)|
  }

  /** The response to request `n` is part of the resource, from the byte asked for on. */
  predicate Honours(serve: Server, resource: seq<byte>, n: nat) {
    var at := StartsAt(serve, n);
    at <= |resource| && Body(serve(n, at)) <= resource[at..]
  }

  /**
   What has been gathered is a prefix of the resource if and only if every response
   so far has honoured its range; one that has not is never made good.
   */
  lemma {:induction false} GatheredIsPrefix(serve: Server, resource: seq<byte>, n: nat)
    ensures Gathered(serve, n) <= resource <==> forall k: nat :: k <= n ==> Honours(serve, resource, k)
    decreases n
  {
    if n == 0 {
      assert resource[0..] == resource;
      assert Gathered(serve, 0) <= resource <==> Honours(serve, resource, 0);
    } else {
      GatheredIsPrefix(serve, resource, n - 1);
      var before := Gathered(serve, n - 1);
      var part := Body(serve(n, |before|));
      PrefixOfPrefix(before, Gathered(serve, n), resource);
      if before <= resource {
        assert resource == before + resource[|before|..];
        AppendKeepsPrefix(resource, |before|, part);
        assert Gathered(serve, n) <= resource <==> Honours(serve, resource, n);
      } else {
        var k: nat :| k <= n - 1 && !Honours(serve, resource, k);
      }
    }
  }

  lemma PrefixOfPrefix(s: seq<byte>, t: seq<byte>, u: seq<byte>)
    ensures s <= t && t <= u ==> s <= u
  {
    if s <= t && t <= u {
      assert forall i :: 0 <= i < |s| ==> s[i] == t[i] == u[i];
    }
  }

  /** Appending to what has been fetched keeps it a prefix exactly when the bytes come from where it ended. */
  lemma AppendKeepsPrefix(resource: seq<byte>, at: nat, part: seq<byte>)
    requires at <= |resource|
    ensures part <= resource[at..] <==> resource[..at] + part <= resource
  {
    if resource[..at] + part <= resource {
      assert part == (resource[..at] + part)[at..] == resource[at..at + |part|];
    }
  }

  class Download {
    var received: nat
    var written: nat
    var contentLength: nat
    var open: bool
    var file: seq<byte>
    ghost var got: seq<byte>  // everything received

    constructor ()
      ensures !open && received == written == contentLength == 0 && file == got == []
    {
      received, written, contentLength, open, file, got := 0, 0, 0, false, [], [];
    }

    /** fs_write: some of the bytes are stored, or none and an error comes back. */
    method FsWrite(frag: seq<byte>, stored: int) returns (ret: int)
      requires stored <= |frag|
      modifies `file
      ensures ret == if open then stored else -EBADF
      ensures file == old(file) + if open && stored > 0 then frag[..stored] else []
    {
      if !open {
        return -EBADF;
      }
      if stored > 0 {
        file := file + frag[..stored];
      }
      return stored;
    }

    /** response_cb_download */
    method Callback(rsp: Call, toFile: bool)
      requires rsp.stored <= |rsp.frag|
      modifies `received, `written, `contentLength, `file, `got
      ensures contentLength == if old(contentLength) == 0 then rsp.contentLength else old(contentLength)
      ensures var frag := if rsp.bodyFound then rsp.frag else [];
              received == old(received) + |frag| && got == old(got) + frag
      ensures var kept := if rsp.bodyFound && toFile && open && rsp.stored > 0 then rsp.frag[..rsp.stored] else [];
              file == old(file) + kept && written == old(written) + |kept|
    {
      if contentLength == 0 {
        if rsp.contentLength != 0 {
          contentLength := rsp.contentLength;
        }
      }
      if rsp.bodyFound {
        received := received + |rsp.frag|;
        got := got + rsp.frag;
        if toFile {
          var ret := FsWrite(rsp.frag, rsp.stored);
          if ret > 0 {
            written := written + ret;
          }
        }
      }
    }

    /** Counters and file agree, and nothing is stored that was not received. */
    ghost predicate Sound()
      reads this
    {
      && received == |got|
      && |file| == written <= received
      && (written == received ==> file == got)
    }

    /** One request: the callback runs for every fragment of the response. */
    method Request(calls: seq<Call>, toFile: bool)
      requires Sound() && Writable(calls)
      modifies `received, `written, `contentLength, `file, `got
      ensures Sound() && got == old(got) + Body(calls)
      ensures contentLength == if old(contentLength) != 0 then old(contentLength) else FirstLength(calls)
      ensures toFile && open && (forall i :: 0 <= i < |calls| ==> calls[i].stored == |calls[i].frag|) ==>
                written - old(written) == received - old(received)
    {
      assert Body(calls[..0]) == [] && FirstLength(calls[..0]) == 0;
      for i := 0 to |calls|
        invariant Sound() && got == old(got) + Body(calls[..i])
        invariant contentLength == if old(contentLength) != 0 then old(contentLength) else FirstLength(calls[..i])
        invariant toFile && open && (forall j :: 0 <= j < i ==> calls[j].stored == |calls[j].frag|) ==>
                    written - old(written) == received - old(received)
      {
        BodyOneMore(calls, i);
        FirstLengthOneMore(calls, i);
        Callback(calls[i], toFile);
      }
      assert calls[..|calls|] == calls;
    }

    /**
     The download. `named` says whether a file was named, `first` is what the
     first request returned. Only that status is ever looked at again.
     */
    method Fetch(serve: Server, named: bool, first: int) returns (ret: int, attempts: nat, failures: nat)
      requires AllWritable(serve) && !open && file == got == []
      modifies this
      ensures got == Gathered(serve, attempts) && received == |got|
      ensures file == got <==> written == received
      ensures named && Storing(serve) ==> file == got
      ensures contentLength == FirstLength(serve(0, 0))
      ensures attempts <= 5 * received + 5
      ensures contentLength == 0 ==> attempts == 0
      ensures forall n :: 0 <= n < attempts ==> |Gathered(serve, n)| < contentLength
      ensures contentLength == 0 || received >= contentLength || failures == MAX_FAILURES
      ensures failures <= attempts && failures <= MAX_FAILURES
      ensures forall n :: attempts - failures < n <= attempts ==> Body(serve(n, received)) == []
      ensures ret == if failures == MAX_FAILURES && received != contentLength then -EAGAIN
                     else if first < 0 then first else received
    {
      hide Gathered;
      hide Body;
      hide FirstLength;
      received, written, contentLength := 0, 0, 0;
      var failCount := 0;
      attempts := 0;
      open := named;
      Request(serve(0, 0), named);
      GatheredOneMore(serve, 0);
      assert got == [] + Body(serve(0, 0)) == Body(serve(0, 0));
      while contentLength != 0 && contentLength > received && failCount < MAX_FAILURES
        invariant Sound() && open == named && got == Gathered(serve, attempts)
        invariant contentLength == FirstLength(serve(0, 0))
        invariant 0 <= failCount <= MAX_FAILURES && failCount <= attempts
        invariant attempts <= 5 * received + failCount
        invariant contentLength == 0 ==> attempts == 0
        invariant forall n :: 0 <= n < attempts ==> |Gathered(serve, n)| < contentLength
        invariant forall n :: attempts - failCount < n <= attempts ==> Body(serve(n, received)) == []
        invariant named && Storing(serve) ==> written == received
        decreases contentLength - received, MAX_FAILURES - failCount
      {
        GatheredOneMore(serve, attempts);
        failCount := failCount + 1;
        attempts := attempts + 1;
        var last := received;
        Request(serve(attempts, received), true);
        if last < received {
          failCount := 0;
        }
      }
      failures := failCount;
      if failCount == MAX_FAILURES && received != contentLength {
        ret := -EAGAIN;
      } else {
        ret := if first < 0 then first else received;
      }
    }
  }

  // ---- A complete download that is reported as failed ----

  const WHOLE: seq<byte> := [1, 2, 3, 4]

  /** Breaks off after two bytes, and delivers the rest when asked. */
  function Interrupted(n: nat, at: nat): seq<Call> {
    if n == 0 then [Call(4, true, [1, 2], 2)]
    else if at <= 4 then [Call(4 - at, true, WHOLE[at..], 4 - at)]
    else []
  }

  lemma InterruptedBody(n: nat, at: nat)
    ensures Body(Interrupted(n, at)) == if n == 0 then [1, 2] else if at <= 4 then WHOLE[at..] else []
    ensures FirstLength(Interrupted(0, 0)) == 4
  {
    if n == 0 || at <= 4 {
      assert Interrupted(n, at)[1..] == [];
    }
    assert Interrupted(0, 0)[1..] == [];
  }

  /** The first request fails with a timeout, the next completes the file, and the timeout is what is returned. */
  method CompleteButFailed() returns (ret: int, file: seq<byte>)
    ensures ret == -116 && file == WHOLE
  {
    var d := new Download();
    var attempts, failures;
    ret, attempts, failures := d.Fetch(Interrupted, true, -116);
    file := d.file;
    InterruptedBody(attempts, d.received);
    GatheredWhole(attempts);
  }

  lemma {:induction false} GatheredWhole(n: nat)
    ensures Gathered(Interrupted, n) == if n == 0 then [1, 2] else WHOLE
    decreases n
  {
    InterruptedBody(0, 0);
    if n > 0 {
      GatheredWhole(n - 1);
      InterruptedBody(n, |Gathered(Interrupted, n - 1)|);
    }
  }
}
