/** RTP sequence and timestamp tracking with 16- and 32-bit wire fields, against the true counters. */
module RtpTracking {
  import opened Modular

  const SEQ: int := 0x1_0000
  const WORD32: int := 0x1_0000_0000
  const WORD64: int := 0x1_0000_0000_0000_0000

  // ---------------- loss accounting ----------------

  /** The packets missing between `last` and `seq`, and whether `seq` moves forward. */
  function LossGap(last: int, seq_: int): (int, bool)
  {
    var gap := (seq_ - last - 1) % SEQ;
    if gap < 0x8000 then (gap, true) else (0, false)
  }

  datatype Tracker = Tracker(valid: bool, last: int, lost: int)

  const UNSEEN: Tracker := Tracker(false, 0, 0)

  function Receive(t: Tracker, seq_: int): Tracker
  {
    if !t.valid then Tracker(true, seq_, t.lost)
    else
      var (lost, advance) := LossGap(t.last, seq_);
      Tracker(true, if advance then seq_ else t.last, t.lost + lost)
  }

  /** The tracker after the packets with true sequence numbers `sent`, of which the wire carries the
      low 16 bits. */
  function Tracked(sent: seq<int>): Tracker
  {
    if sent == [] then UNSEEN else Receive(Tracked(sent[..|sent| - 1]), sent[|sent| - 1] % SEQ)
  }

  /** The largest true sequence number so far. */
  function HighWater(sent: seq<int>): int
    requires sent != []
  {
    if |sent| == 1 then sent[0]
    else
      var h, last := HighWater(sent[..|sent| - 1]), sent[|sent| - 1];
      if last > h then last else h
  }

  /** How many packets raised the high-water mark after the first. */
  function Forward(sent: seq<int>): nat
  {
    if |sent| <= 1 then 0
    else Forward(sent[..|sent| - 1]) + if sent[|sent| - 1] > HighWater(sent[..|sent| - 1]) then 1 else 0
  }

  /** Each packet is within half the sequence space of the high-water mark before it. */
  ghost predicate Near(sent: seq<int>)
  {
    forall k :: 1 <= k < |sent| ==> -32767 <= sent[k] - HighWater(sent[..k]) <= 32768
  }

  lemma GapIsDistance(high: int, next: int)
    requires -32767 <= next - high <= 32768
    ensures LossGap(high % SEQ, next % SEQ) == if next > high then (next - high - 1, true) else (0, false)
  {
    ModDifference(next, high, SEQ);
    ModDifference(next % SEQ - high % SEQ, 1, SEQ);
    ModDifference(next - high, 1, SEQ);
    if next <= high {
      ModPlus(next - high - 1, 1, SEQ);
    }
  }

  /** The stored sequence number is the true maximum, and lost plus forward packets make up the span. */
  lemma {:induction false} TrackingIsExact(sent: seq<int>)
    requires sent != [] && Near(sent)
    ensures Tracked(sent).valid && Tracked(sent).last == HighWater(sent) % SEQ
    ensures Tracked(sent).lost + Forward(sent) == HighWater(sent) - sent[0]
  {
    var p, last := sent[..|sent| - 1], sent[|sent| - 1];
    if |sent| == 1 {
      assert p == [];
    } else {
      assert forall k :: 1 <= k < |p| ==> p[..k] == sent[..k];
      TrackingIsExact(p);
      GapIsDistance(HighWater(p), last);
    }
  }

  /** Packets delivered one by one in order lose nothing, however long the stream. */
  lemma InOrderLosesNothing(sent: seq<int>)
    requires sent != [] && forall k :: 1 <= k < |sent| ==> sent[k] == sent[k - 1] + 1
    ensures Near(sent) && HighWater(sent) == sent[|sent| - 1] == sent[0] + |sent| - 1 && Tracked(sent).lost == 0
  {
    InOrder(sent, |sent|);
    forall k | 1 <= k < |sent| ensures -32767 <= sent[k] - HighWater(sent[..k]) <= 32768 {
      InOrder(sent, k);
    }
    assert sent[..|sent|] == sent;
    TrackingIsExact(sent);
  }

  lemma {:induction false} InOrder(sent: seq<int>, k: nat)
    requires 1 <= k <= |sent| && forall i :: 1 <= i < |sent| ==> sent[i] == sent[i - 1] + 1
    ensures HighWater(sent[..k]) == sent[k - 1] == sent[0] + k - 1 && Forward(sent[..k]) == k - 1
  {
    if k > 1 {
      InOrder(sent, k - 1);
      assert sent[..k][..k - 1] == sent[..k - 1];
    }
  }

  /** The receiver's counters. */
  class LossCounter {
    var valid: bool
    var last: int
    var lost: int

    ghost function State(): Tracker
      reads this
    {
      Tracker(valid, last, lost)
    }

    constructor ()
      ensures State() == UNSEEN
    {
      valid, last, lost := false, 0, 0;
    }

    method Packet(seq_: int)
      modifies this
      ensures State() == Receive(old(State()), seq_)
    {
      if !valid {
        last, valid := seq_, true;
      } else {
        var (gap, advance) := LossGap(last, seq_);
        lost := lost + gap;
        if advance { last := seq_; }
      }
    }
  }

  // ---------------- timestamps ----------------

  /** The low 32 bits of a difference, as a signed value. */
  function Signed32(x: int): int
  {
    var d := x % WORD32;
    if d < WORD32 / 2 then d else d - WORD32
  }

  /** Extend a 32-bit timestamp by the previously extended one, in 64-bit arithmetic. */
  function Unwrap(ts: int, prev: int): int
  {
    (prev + Signed32(ts - prev % WORD32)) % WORD64
  }

  function Unwrapped(times: seq<int>): int
  {
    if times == [] then 0 else Unwrap(times[|times| - 1] % WORD32, Unwrapped(times[..|times| - 1]))
  }

  /** The step to the `k`-th time, from zero for the first. */
  function StepTo(times: seq<int>, k: nat): int
    requires k < |times|
  {
    if k == 0 then times[0] else times[k] - times[k - 1]
  }

  ghost predicate SmallSteps(times: seq<int>)
  {
    forall k :: 0 <= k < |times| ==> -WORD32 / 2 <= StepTo(times, k) < WORD32 / 2
  }

  lemma SignedDifference(time: int, before: int)
    requires -WORD32 / 2 <= time - before < WORD32 / 2
    ensures Signed32(time % WORD32 - before % WORD32) == time - before
  {
    ModDifference(time, before, WORD32);
    if time < before {
      ModPlus(time - before, 1, WORD32);
    }
  }

  lemma Low32(before: int)
    ensures (before % WORD64) % WORD32 == before % WORD32
  {
    var q := before / WORD64;
    assert before == WORD64 * q + before % WORD64;
    assert WORD64 * q == WORD32 * (WORD32 * q);
    ModPlus(before % WORD64, WORD32 * q, WORD32);
  }

  lemma UnwrapStep(time: int, before: int)
    requires -WORD32 / 2 <= time - before < WORD32 / 2
    ensures Unwrap(time % WORD32, before % WORD64) == time % WORD64
  {
    Low32(before);
    SignedDifference(time, before);
    var q := before / WORD64;
    assert before == WORD64 * q + before % WORD64;
    ModPlus(before % WORD64 + (time - before), q, WORD64);
  }

  /** With steps below half the 32-bit range the extended timestamp is the true sample index, for
      streams of any length. */
  lemma {:induction false} UnwrapIsExact(times: seq<int>)
    requires times != [] && SmallSteps(times)
    ensures Unwrapped(times) == times[|times| - 1] % WORD64
  {
    var k := |times| - 1;
    var p := times[..k];
    assert -WORD32 / 2 <= StepTo(times, k) < WORD32 / 2;
    if k == 0 {
      UnwrapStep(times[0], 0);
    } else {
      forall j | 0 <= j < |p| ensures -WORD32 / 2 <= StepTo(p, j) < WORD32 / 2 {
        assert StepTo(p, j) == StepTo(times, j);
      }
      UnwrapIsExact(p);
      UnwrapStep(times[k], times[k - 1]);
    }
  }
}
