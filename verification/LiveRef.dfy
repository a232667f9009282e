/** The coalesced live ref: only the clean-to-dirty transition is written at once, later generation
    bumps stay in memory until something reads the ref. Proved to refine a ref that is written on
    every operation, and to lose nothing but generation bumps at a crash.

    Each operation is one step, and the write-backs of touches and flushes succeed; a snapshot or a
    ref move may fail, which leaves the flushed ref as it is. */
module LiveRef {

  datatype Ref = Ref(unborn: bool, hash: nat, generation: nat, dirty: bool)

  datatype Expect = ExpectNull | ExpectHash(hash: nat)

  /** What becomes of a ref move once the comparison has allowed it. */
  datatype Outcome = Accepted | ClosureIncomplete | EngineDiffers | NotLoadable | StorageFails

  datatype Op =
    | Touch(dirty: bool)
    | Flush
    | Snapshot(hash: nat)
    | SnapshotFails
    | RefSet(expected: Expect, hash: nat, create: bool, force: bool, outcome: Outcome)

  /** What the caller is told. */
  datatype Reply = Quiet | Failed | Conflict(r: Ref) | Refused(why: Outcome) | Done(generation: nat)

  // ---------------- written through ----------------

  function Touched(r: Ref, dirty: bool): Ref
  {
    r.(generation := r.generation + 1, dirty := dirty)
  }

  /** Point the ref at `hash`, clean. */
  function Moved(r: Ref, hash: nat): Ref
  {
    Ref(false, hash, r.generation + 1, false)
  }

  predicate Matches(r: Ref, expected: Expect, create: bool)
  {
    if r.unborn then expected.ExpectNull? || create else expected == ExpectHash(r.hash)
  }

  function Through(r: Ref, op: Op): (Ref, Reply)
  {
    match op
    case Touch(dirty) => (Touched(r, dirty), Quiet)
    case Flush => (r, Quiet)
    case Snapshot(hash) => (Moved(r, hash), Done(r.generation + 1))
    case SnapshotFails => (r, Failed)
    case RefSet(expected, hash, create, force, outcome) =>
      if !force && (!Matches(r, expected, create) || r.dirty) then (r, Conflict(r))
      else if outcome != Accepted then (r, Refused(outcome))
      else (Moved(r, hash), Done(r.generation + 1))
  }

  // ---------------- coalesced ----------------

  datatype Live = Live(stored: Ref, cache: Ref, valid: bool)

  function Flushed(l: Live): Live
  {
    if l.valid then Live(l.cache, l.cache, false) else l
  }

  function Coalesced(l: Live, op: Op): (Live, Reply)
  {
    match op
    case Touch(dirty) =>
      var cache := if l.valid then l.cache else l.stored;
      var cache' := Touched(cache, dirty);
      (Live(if dirty && !cache.dirty then cache' else l.stored, cache', true), Quiet)
    case Flush => (Flushed(l), Quiet)
    case Snapshot(hash) =>
      var f := Flushed(l);
      (f.(stored := Moved(f.stored, hash)), Done(f.stored.generation + 1))
    case SnapshotFails => (Flushed(l), Failed)
    case RefSet(expected, hash, create, force, outcome) =>
      var f := Flushed(l);
      if !force && (!Matches(f.stored, expected, create) || f.stored.dirty) then (f, Conflict(f.stored))
      else if outcome != Accepted then (f, Refused(outcome))
      else (f.(stored := Moved(f.stored, hash)), Done(f.stored.generation + 1))
  }

  // ---------------- the refinement ----------------

  /** The ref as its readers see it. */
  function Current(l: Live): Ref
  {
    if l.valid then l.cache else l.stored
  }

  /** What a crash leaves differs from the current ref in its generation only, which is not ahead. */
  ghost predicate CrashSafe(l: Live)
  {
    && l.stored.unborn == Current(l).unborn && l.stored.hash == Current(l).hash && l.stored.dirty == Current(l).dirty
    && l.stored.generation <= Current(l).generation
  }

  function RunThrough(r: Ref, ops: seq<Op>): (Ref, seq<Reply>)
  {
    if ops == [] then (r, [])
    else
      var (r1, out) := RunThrough(r, ops[..|ops| - 1]);
      var (r2, a) := Through(r1, ops[|ops| - 1]);
      (r2, out + [a])
  }

  function RunCoalesced(l: Live, ops: seq<Op>): (Live, seq<Reply>)
  {
    if ops == [] then (l, [])
    else
      var (l1, out) := RunCoalesced(l, ops[..|ops| - 1]);
      var (l2, a) := Coalesced(l1, ops[|ops| - 1]);
      (l2, out + [a])
  }

  lemma StepRefines(l: Live, op: Op)
    ensures var (l', a) := Coalesced(l, op);
            Current(l') == Through(Current(l), op).0 && a == Through(Current(l), op).1
    ensures !op.Touch? ==> !Coalesced(l, op).0.valid
  {
  }

  /** Every reader and every caller sees what they would see with every operation written through,
      and any flush makes the stored ref equal to it. */
  lemma {:induction false} RunRefines(l: Live, ops: seq<Op>)
    ensures var (l', out) := RunCoalesced(l, ops); var (r', out') := RunThrough(Current(l), ops);
            Current(l') == r' && out == out' && Flushed(l').stored == r'
  {
    if ops != [] {
      RunRefines(l, ops[..|ops| - 1]);
      StepRefines(RunCoalesced(l, ops[..|ops| - 1]).0, ops[|ops| - 1]);
    }
  }

  /** A touch keeps the crash guarantee exactly when it does not clean a dirty ref in memory only. */
  lemma TouchCrashSafe(l: Live, dirty: bool)
    requires CrashSafe(l)
    ensures CrashSafe(Coalesced(l, Touch(dirty)).0) <==> dirty || !Current(l).dirty
  {
  }

  lemma OtherCrashSafe(l: Live, op: Op)
    requires CrashSafe(l) && !op.Touch?
    ensures CrashSafe(Coalesced(l, op).0)
  {
  }

  /** Every touch of the run marks the ref dirty, as all callers do. */
  ghost predicate OnlyDirties(ops: seq<Op>)
  {
    forall i :: 0 <= i < |ops| ==> ops[i].Touch? ==> ops[i].dirty
  }

  /** At every point of every run a crash loses at most generation bumps: the stored hash and dirty
      flag are those of the written-through ref. */
  lemma CrashLosesOnlyGenerations(r: Ref, ops: seq<Op>)
    requires OnlyDirties(ops)
    ensures var l := RunCoalesced(Live(r, r, false), ops).0; var t := RunThrough(r, ops).0;
            && l.stored.unborn == t.unborn && l.stored.hash == t.hash && l.stored.dirty == t.dirty
            && l.stored.generation <= t.generation
  {
    RunCrashSafe(r, ops);
    RunRefines(Live(r, r, false), ops);
  }

  lemma {:induction false} RunCrashSafe(r: Ref, ops: seq<Op>)
    requires OnlyDirties(ops)
    ensures CrashSafe(RunCoalesced(Live(r, r, false), ops).0)
  {
    if ops != [] {
      var p, op := ops[..|ops| - 1], ops[|ops| - 1];
      RunCrashSafe(r, p);
      var l := RunCoalesced(Live(r, r, false), p).0;
      if op.Touch? {
        TouchCrashSafe(l, op.dirty);
      } else {
        OtherCrashSafe(l, op);
      }
    }
  }

  /** No touch of the run clears the dirty flag. Every caller passes true, so this is so of all runs the
      device makes. */
  ghost predicate CleansNothing(r: Ref, ops: seq<Op>)
  {
    forall k :: 0 <= k < |ops| && ops[k] == Touch(false) ==> !RunThrough(r, ops[..k]).0.dirty
  }

  ghost predicate SafeAt(r: Ref, ops: seq<Op>, k: nat)
    requires k <= |ops|
  {
    CrashSafe(RunCoalesced(Live(r, r, false), ops[..k]).0)
  }

  lemma SafeStep(r: Ref, ops: seq<Op>, k: nat)
    requires k < |ops| && SafeAt(r, ops, k)
    ensures SafeAt(r, ops, k + 1) <==> (ops[k] == Touch(false) ==> !RunThrough(r, ops[..k]).0.dirty)
  {
    var l := RunCoalesced(Live(r, r, false), ops[..k]).0;
    assert ops[..k + 1][..k] == ops[..k];
    RunRefines(Live(r, r, false), ops[..k]);
    if ops[k].Touch? {
      TouchCrashSafe(l, ops[k].dirty);
    } else {
      OtherCrashSafe(l, ops[k]);
    }
  }

  lemma {:induction false} SafeTo(r: Ref, ops: seq<Op>, k: nat)
    requires k <= |ops| && CleansNothing(r, ops)
    ensures SafeAt(r, ops, k)
  {
    if k > 0 {
      SafeTo(r, ops, k - 1);
      SafeStep(r, ops, k - 1);
    }
  }

  /** A run is safe at every point exactly when none of its touches cleans a dirty ref in memory. */
  lemma AlwaysSafeExactly(r: Ref, ops: seq<Op>)
    ensures (forall k :: 0 <= k <= |ops| ==> SafeAt(r, ops, k)) <==> CleansNothing(r, ops)
  {
    if CleansNothing(r, ops) {
      forall k | 0 <= k <= |ops| ensures SafeAt(r, ops, k) {
        SafeTo(r, ops, k);
      }
    }
    if forall k :: 0 <= k <= |ops| ==> SafeAt(r, ops, k) {
      forall k | 0 <= k < |ops| && ops[k] == Touch(false) ensures !RunThrough(r, ops[..k]).0.dirty {
        assert SafeAt(r, ops, k + 1);
        SafeStep(r, ops, k);
      }
    }
  }

  /** The function's other branch, which no caller takes: a touch that cleans a dirty ref in memory
      leaves the stored one dirty. */
  lemma CleaningTouchIsLost()
    ensures var r := Ref(false, 1, 0, false); var ops := [Touch(true), Touch(false)];
            RunCoalesced(Live(r, r, false), ops).0.stored.dirty != RunThrough(r, ops).0.dirty
  {
    var r, ops := Ref(false, 1, 0, false), [Touch(true), Touch(false)];
    assert ops[..1] == [Touch(true)] && ops[..1][..0] == [];
    assert RunCoalesced(Live(r, r, false), ops[..1]).0 == Live(Touched(r, true), Touched(r, true), true);
    assert RunThrough(r, ops[..1]).0 == Touched(r, true);
  }

  // ---------------- the device's fields ----------------

  class Device {
    var stored: Ref
    var cache: Ref
    var valid: bool

    ghost function State(): Live
      reads this
    {
      Live(stored, cache, valid)
    }

    constructor (r: Ref)
      ensures State() == Live(r, r, false)
    {
      stored, cache, valid := r, r, false;
    }

    method TouchLive(dirty: bool)
      modifies this
      ensures State() == Coalesced(old(State()), Touch(dirty)).0
    {
      if !valid {
        cache := stored;
        valid := true;
      }
      var transition := dirty && !cache.dirty;
      cache := cache.(generation := cache.generation + 1);
      cache := cache.(dirty := dirty);
      if transition {
        stored := cache;
      }
    }

    method FlushLive()
      modifies this
      ensures State() == Flushed(old(State()))
    {
      if valid {
        stored := cache;
        valid := false;
      }
    }

    /** `made` is false when the snapshot's objects or its ref could not be stored. */
    method TakeSnapshot(made: bool, hash: nat) returns (reply: Reply)
      modifies this
      ensures (State(), reply) == Coalesced(old(State()), if made then Snapshot(hash) else SnapshotFails)
    {
      FlushLive();
      if !made {
        return Failed;
      }
      stored := Ref(false, hash, stored.generation + 1, false);
      reply := Done(stored.generation);
    }

    /** Compare and swap: the expected hash and a clean ref, unless forced. */
    method SetRef(expected: Expect, hash: nat, create: bool, force: bool, outcome: Outcome) returns (reply: Reply)
      modifies this
      ensures (State(), reply) == Coalesced(old(State()), RefSet(expected, hash, create, force, outcome))
    {
      FlushLive();
      var r := stored;
      var ok := if r.unborn then expected.ExpectNull? || create else expected.ExpectHash? && expected.hash == r.hash;
      if !force && (!ok || r.dirty) {
        return Conflict(r);
      }
      if outcome != Accepted {
        return Refused(outcome);
      }
      stored := Ref(false, hash, r.generation + 1, false);
      reply := Done(stored.generation);
    }
  }
}
