/**
 Receive slots: the driver takes a free one for every packet it packets, and
 K_RUN gives it back. Exactly two kinds of call do not.
 */
module Slots {
  import opened Bytes
  import opened Engine

  /** The first free slot from `i` on, or -1. */
  function FirstFree(slots: seq<Slot>, i: nat): (n: int)
    ensures n == -1 || (i <= n < |slots| && slots[n].len < 1)
    decreases |slots| - i
  {
    if i >= |slots| then -1 else if slots[i].len < 1 then i else FirstFree(slots, i + 1)
  }

  function FreeCount(slots: seq<Slot>): (n: nat)
    ensures n <= |slots|
  {
    if slots == [] then 0 else (if slots[0].len < 1 then 1 else 0) + FreeCount(slots[1..])
  }

  lemma {:induction false} FreeCountUpdate(slots: seq<Slot>, i: nat, x: Slot)
    requires i < |slots|
    ensures FreeCount(slots[i := x]) ==
            FreeCount(slots) - (if slots[i].len < 1 then 1 else 0) + (if x.len < 1 then 1 else 0)
  {
    if i == 0 {
      assert slots[0 := x][1..] == slots[1..];
    } else {
      assert slots[i := x][1..] == slots[1..][i - 1 := x];
      FreeCountUpdate(slots[1..], i - 1, x);
    }
  }

  lemma {:induction false} FirstFreeExists(slots: seq<Slot>, i: nat)
    requires i <= |slots|
    ensures FirstFree(slots, i) >= 0 <==> FreeCount(slots[i..]) > 0
    decreases |slots| - i
  {
    if i < |slots| {
      FirstFreeExists(slots, i + 1);
      assert slots[i..][1..] == slots[i + 1..];
    }
  }

  /**
   The calls that keep their slot: a read of one to three bytes, and an
   acknowledgement by which the receiver stops the file.
   */
  predicate Leaks(k: KState, rx: Rx) {
    match rx
    case Short(len) => len >= 1
    case Damaged(_, _, _) => false
    case Intact(p, len) => k.what.Sending? && p.typ == Y && p.sq == k.r_seq && Cancelled(k, p) && len >= 1
  }

  /** Every call that succeeds frees its slot if and only if it is not one of those, and touches no other. */
  lemma SlotIsFreed(k: KState, slot: nat, rx: Rx, fill: Fill)
    requires slot < |k.slots| && Wellformed(k)
    ensures var res := Run(k, slot, rx, fill);
            && |res.k.slots| == |k.slots|
            && (forall i :: 0 <= i < |k.slots| && i != slot ==> res.k.slots[i] == k.slots[i])
            && (res.out.Ok? ==> (res.k.slots[slot].len < 1 <==> !Leaks(k, rx)))
  {
    hide Receive;
    hide Proceed;
    hide Ascii;
    if rx.Intact? {
      var arrived := k.(slots := k.slots[slot := Slot(rx.len, 0)]);
      ReceiveKeepsSlots(arrived, rx.p);
      var sl := k.slots;
      assert sl[slot := Slot(rx.len, sl[slot].rtr)][slot := Slot(rx.len, 0)] == sl[slot := Slot(rx.len, 0)];
      var freed := Free(arrived, slot);
      if k.what.Sending? && rx.p.typ != E {
        ProceedKeepsSlots(freed, rx.p, fill);
      }
    }
  }

  lemma ProceedKeepsSlots(k: KState, p: Packet, fill: Fill)
    requires Wellformed(k) && k.what.Sending?
    ensures Proceed(k, p, fill).k.slots == k.slots
  {
    hide Ascii;
    hide AttrField;
  }

  // ---- The driver loop ----

  datatype Driven = Driven(k: KState, ended: bool, starved: bool)

  /**
   The loop of ekermit_main over the given packets: it allocates a slot, reads,
   calls K_RUN, and stops when the call does not say OK or no slot is left.
   */
  function Drive(k: KState, packets: seq<Rx>, fills: seq<Fill>): Driven
    requires |fills| == |packets|
    decreases |packets|
  {
    if packets == [] then Driven(k, false, false)
    else
      var n := FirstFree(k.slots, 0);
      if n < 0 || !Wellformed(k) then Driven(k, false, n < 0)
      else
        var k := k.(slots := k.slots[n := k.slots[n].(len := -1)]);
        var res := Run(k, n, packets[0], fills[0]);
        if !res.out.Ok? then Driven(res.k, true, false) else Drive(res.k, packets[1..], fills[1..])
  }

  /** How many of the calls made keep their slot. */
  function LeakCount(k: KState, packets: seq<Rx>, fills: seq<Fill>): nat
    requires |fills| == |packets|
    decreases |packets|
  {
    if packets == [] then 0
    else
      var n := FirstFree(k.slots, 0);
      if n < 0 || !Wellformed(k) then 0
      else
        var k := k.(slots := k.slots[n := k.slots[n].(len := -1)]);
        var res := Run(k, n, packets[0], fills[0]);
        if !res.out.Ok? then 0
        else (if Leaks(k, packets[0]) then 1 else 0) + LeakCount(res.k, packets[1..], fills[1..])
  }

  /**
   Conservation over whole runs of the driver: the free slots and the leaked ones
   always add up, so the driver runs out of slots exactly when as many calls as
   there were free slots have kept theirs. Without such calls it never does.
   */
  lemma {:induction false} SlotsAreConserved(k: KState, packets: seq<Rx>, fills: seq<Fill>)
    requires |fills| == |packets|
    ensures var d := Drive(k, packets, fills);
            !d.ended ==> FreeCount(d.k.slots) + LeakCount(k, packets, fills) == FreeCount(k.slots)
    ensures Drive(k, packets, fills).starved ==> LeakCount(k, packets, fills) == FreeCount(k.slots)
    decreases |packets|
  {
    hide Run;
    hide Leaks;
    hide Wellformed;
    if packets != [] {
      var n := FirstFree(k.slots, 0);
      FirstFreeExists(k.slots, 0);
      assert k.slots[0..] == k.slots;
      if n >= 0 && Wellformed(k) {
        var k1 := k.(slots := k.slots[n := k.slots[n].(len := -1)]);
        assert Wellformed(k1) by {
          SameWellformed(k, k1);
        }
        FreeCountUpdate(k.slots, n, k1.slots[n]);
        var res := Run(k1, n, packets[0], fills[0]);
        SlotIsFreed(k1, n, packets[0], fills[0]);
        assert res.k.slots == k1.slots[n := res.k.slots[n]];
        FreeCountUpdate(k1.slots, n, res.k.slots[n]);
        if res.out.Ok? {
          SlotsAreConserved(res.k, packets[1..], fills[1..]);
        }
      }
    }
  }

  lemma SameWellformed(k: KState, k': KState)
    requires k' == k.(slots := k'.slots)
    ensures Wellformed(k') == Wellformed(k)
  {
  }
}
