/** The per-connection token bucket for expensive control operations. */
module OpRate {

  datatype Bucket = Bucket(allowance: nat, last: nat)

  const FRESH: Bucket := Bucket(0, 0)

  function Refilled(b: Bucket, now: nat, burst: nat): nat
  {
    if b.last == 0 then burst
    else if now > b.last then
      var a := b.allowance + (now - b.last);
      if a > burst then burst else a
    else b.allowance
  }

  function Admit(b: Bucket, now: nat, cost: nat, burst: nat): (Bucket, bool)
  {
    var a := Refilled(b, now, burst);
    if a >= cost then (Bucket(a - cost, now), true) else (Bucket(a, now), false)
  }

  /** The bucket after decisions at `times`, and how many were admitted. */
  function Decided(times: seq<nat>, cost: nat, burst: nat): (Bucket, nat)
  {
    if times == [] then (FRESH, 0)
    else
      var (b, k) := Decided(times[..|times| - 1], cost, burst);
      var (b', ok) := Admit(b, times[|times| - 1], cost, burst);
      (b', k + if ok then 1 else 0)
  }

  /** A monotonic clock that has left zero. */
  ghost predicate Monotonic(times: seq<nat>)
  {
    && (forall i :: 0 <= i < |times| ==> times[i] > 0)
    && (forall i, j :: 0 <= i < j < |times| ==> times[i] <= times[j])
  }

  lemma {:induction false} Spent(times: seq<nat>, cost: nat, burst: nat)
    requires times != [] && Monotonic(times)
    ensures var (b, k) := Decided(times, cost, burst);
            b.last == times[|times| - 1] && b.allowance <= burst && k * cost + b.allowance <= burst + (b.last - times[0])
  {
    var prev, now := times[..|times| - 1], times[|times| - 1];
    if prev != [] {
      Spent(prev, cost, burst);
      var (b, k) := Decided(prev, cost, burst);
      assert (k + 1) * cost == k * cost + cost;
    }
  }

  /** Whatever the requests, the cost of what is admitted is at most the burst plus the time elapsed. */
  lemma AdmissionBound(times: seq<nat>, cost: nat, burst: nat)
    requires times != [] && Monotonic(times)
    ensures Decided(times, cost, burst).1 * cost <= burst + (times[|times| - 1] - times[0])
  {
    Spent(times, cost, burst);
  }

  /** Requests a full interval apart are all admitted, so a normal cadence is never throttled. */
  lemma {:induction false} SlowIsAdmitted(times: seq<nat>, cost: nat, burst: nat)
    requires Monotonic(times) && cost <= burst && forall i :: 1 <= i < |times| ==> times[i] >= times[i - 1] + cost
    ensures Decided(times, cost, burst).1 == |times|
    ensures times != [] ==> Decided(times, cost, burst).0.last == times[|times| - 1]
  {
    if times != [] {
      SlowIsAdmitted(times[..|times| - 1], cost, burst);
    }
  }

  /** Nothing was asked for a whole burst's time before request `i`. */
  ghost predicate Rested(times: seq<nat>, i: nat, burst: nat)
    requires i < |times|
  {
    i == 0 || times[i] >= times[i - 1] + burst
  }

  lemma DecidedLast(times: seq<nat>, i: nat, cost: nat, burst: nat)
    requires 0 < i <= |times| && Monotonic(times)
    ensures Decided(times[..i], cost, burst).0.last == times[i - 1]
  {
    Spent(times[..i], cost, burst);
  }

  /** What is left of the burst covers one more request. */
  lemma BurstStep(b: Bucket, now: nat, cost: nat, burst: nat, spent: nat, spent': nat)
    requires b.last <= now && spent' == spent + cost <= burst
    requires Refilled(b, now, burst) == burst || b.allowance + spent >= burst
    ensures Admit(b, now, cost, burst).1 && Admit(b, now, cost, burst).0.allowance + spent' >= burst
  {
  }

  lemma DecidedNext(times: seq<nat>, j: nat, cost: nat, burst: nat)
    requires j < |times|
    ensures var (b, k) := Decided(times[..j], cost, burst); var (b', ok) := Admit(b, times[j], cost, burst);
            Decided(times[..j + 1], cost, burst) == (b', k + if ok then 1 else 0)
  {
    assert times[..j + 1][..j] == times[..j];
  }

  lemma RestedIsFull(times: seq<nat>, i: nat, cost: nat, burst: nat)
    requires Monotonic(times) && i < |times| && Rested(times, i, burst)
    ensures Refilled(Decided(times[..i], cost, burst).0, times[i], burst) == burst
  {
    if i > 0 {
      DecidedLast(times, i, cost, burst);
      Spent(times[..i], cost, burst);
    } else {
      assert times[..i] == [];
    }
  }

  /** Requests `i` up to `j` are all admitted, and what they cost is all that is missing. */
  ghost predicate BurstTo(times: seq<nat>, i: nat, j: nat, cost: nat, burst: nat, spent: nat)
    requires i <= j <= |times|
  {
    && Decided(times[..j], cost, burst).1 == Decided(times[..i], cost, burst).1 + (j - i)
    && (i < j ==> Decided(times[..j], cost, burst).0.allowance + spent >= burst)
  }

  lemma BurstOn(times: seq<nat>, i: nat, j: nat, cost: nat, burst: nat, spent: nat, spent': nat)
    requires Monotonic(times) && i <= j < |times| && Rested(times, i, burst)
    requires spent' == spent + cost <= burst && BurstTo(times, i, j, cost, burst, spent)
    ensures BurstTo(times, i, j + 1, cost, burst, spent')
  {
    if i == j {
      RestedIsFull(times, i, cost, burst);
    }
    LastBefore(times, j, cost, burst);
    BurstStep(Decided(times[..j], cost, burst).0, times[j], cost, burst, spent, spent');
    DecidedNext(times, j, cost, burst);
  }

  /** The cost of `k` requests. */
  ghost function CostOf(k: nat, cost: nat): nat
  {
    if k == 0 then 0 else CostOf(k - 1, cost) + cost
  }

  lemma {:induction false} CostIsProduct(k: nat, cost: nat)
    ensures CostOf(k, cost) == k * cost
  {
    if k > 0 {
      CostIsProduct(k - 1, cost);
    }
  }

  lemma {:induction false} BurstAll(times: seq<nat>, i: nat, k: nat, cost: nat, burst: nat)
    requires Monotonic(times) && i < |times| && Rested(times, i, burst) && i + k <= |times| && CostOf(k, cost) <= burst
    ensures BurstTo(times, i, i + k, cost, burst, CostOf(k, cost))
    decreases k
  {
    if k > 0 {
      BurstAll(times, i, k - 1, cost, burst);
      BurstOn(times, i, i + (k - 1), cost, burst, CostOf(k - 1, cost), CostOf(k, cost));
    }
  }

  /** After a rest the bucket is full: as many requests as the burst covers are all admitted, however close
      together they come. */
  lemma BurstIsAdmitted(times: seq<nat>, i: nat, k: nat, cost: nat, burst: nat)
    requires Monotonic(times) && i < |times| && Rested(times, i, burst) && i + k <= |times| && k * cost <= burst
    ensures Decided(times[..i + k], cost, burst).1 == Decided(times[..i], cost, burst).1 + k
  {
    CostIsProduct(k, cost);
    BurstAll(times, i, k, cost, burst);
  }

  lemma LastBefore(times: seq<nat>, j: nat, cost: nat, burst: nat)
    requires j < |times| && Monotonic(times)
    ensures Decided(times[..j], cost, burst).0.last <= times[j]
  {
    if j > 0 {
      DecidedLast(times, j, cost, burst);
    } else {
      assert times[..j] == [];
    }
  }

  class Limiter {
    var allowance: nat
    var last: nat

    constructor ()
      ensures Bucket(allowance, last) == FRESH
    {
      allowance, last := 0, 0;
    }

    method TryAdmit(now: nat, cost: nat, burst: nat) returns (ok: bool)
      modifies this
      ensures (Bucket(allowance, last), ok) == Admit(old(Bucket(allowance, last)), now, cost, burst)
    {
      if last == 0 {
        allowance := burst;
      } else if now > last {
        allowance := allowance + (now - last);
        if allowance > burst { allowance := burst; }
      }
      last := now;
      ok := allowance >= cost;
      if ok { allowance := allowance - cost; }
    }
  }
}
