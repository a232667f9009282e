/** When a ref move succeeds, told from the operations of the run and their replies alone: the caller
    must name what the last successful move stored, and no edit may have come after it. */
module CompareAndSwap {
  import opened LiveRef

  /** The last operation that was told the ref has moved, or -1. */
  ghost function LastMove(out: seq<Reply>): (k: int)
    ensures -1 <= k < |out| && (k >= 0 ==> out[k].Done?)
    ensures forall j :: k < j < |out| ==> !out[j].Done?
  {
    if out == [] then -1 else if out[|out| - 1].Done? then |out| - 1 else LastMove(out[..|out| - 1])
  }

  /** The last touch, or -1. */
  ghost function LastTouch(ops: seq<Op>): (k: int)
    ensures -1 <= k < |ops| && (k >= 0 ==> ops[k].Touch?)
    ensures forall j :: k < j < |ops| ==> !ops[j].Touch?
  {
    if ops == [] then -1 else if ops[|ops| - 1].Touch? then |ops| - 1 else LastTouch(ops[..|ops| - 1])
  }

  /** The hash an operation asks for. */
  function Target(op: Op): nat
  {
    match op
    case Snapshot(hash) => hash
    case RefSet(_, hash, _, _, _) => hash
    case _ => 0
  }

  /** The ref never moved since it was unborn. */
  ghost predicate StillUnborn(r: Ref, out: seq<Reply>)
  {
    LastMove(out) < 0 && r.unborn
  }

  /** What the last move stored, or what was there at the start. */
  ghost function HashNow(r: Ref, ops: seq<Op>, out: seq<Reply>): nat
    requires |out| == |ops|
  {
    if LastMove(out) < 0 then r.hash else Target(ops[LastMove(out)])
  }

  /** The last touch since the last move did not dirty the ref; without one, the last move cleaned it, or
      it was clean at the start. */
  ghost predicate CleanNow(r: Ref, ops: seq<Op>, out: seq<Reply>)
  {
    if LastTouch(ops) > LastMove(out) then !ops[LastTouch(ops)].dirty else LastMove(out) >= 0 || !r.dirty
  }

  /** How many operations bumped the generation: every touch and every move. */
  ghost function Bumps(ops: seq<Op>, out: seq<Reply>): nat
    requires |out| == |ops|
  {
    if ops == [] then 0
    else
      var i := |ops| - 1;
      Bumps(ops[..i], out[..i]) + if ops[i].Touch? || out[i].Done? then 1 else 0
  }

  /** The expectation names the ref as the run has left it. */
  ghost predicate Names(r: Ref, ops: seq<Op>, out: seq<Reply>, expected: Expect, create: bool)
    requires |out| == |ops|
  {
    if StillUnborn(r, out) then expected.ExpectNull? || create else expected == ExpectHash(HashNow(r, ops, out))
  }

  ghost predicate Tells(r: Ref, ops: seq<Op>, out: seq<Reply>, t: Ref)
  {
    && |out| == |ops|
    && t.unborn == StillUnborn(r, out) && t.hash == HashNow(r, ops, out) && t.dirty == !CleanNow(r, ops, out)
    && t.generation == r.generation + Bumps(ops, out)
  }

  lemma TellsNext(r: Ref, ops: seq<Op>, out: seq<Reply>, t: Ref, op: Op, a: Reply, t': Ref)
    requires Tells(r, ops, out, t) && (t', a) == Through(t, op)
    ensures Tells(r, ops + [op], out + [a], t')
  {
    var ops', out' := ops + [op], out + [a];
    assert ops'[..|ops'| - 1] == ops && out'[..|out'| - 1] == out;
    assert ops'[|ops|] == op && out'[|out|] == a;
  }

  /** The written-through ref can be told from the operations and the replies. */
  lemma {:induction false} RunTells(r: Ref, ops: seq<Op>)
    ensures Tells(r, ops, RunThrough(r, ops).1, RunThrough(r, ops).0)
  {
    if ops != [] {
      var p, op := ops[..|ops| - 1], ops[|ops| - 1];
      RunTells(r, p);
      var (t, out) := RunThrough(r, p);
      var (t', a) := Through(t, op);
      TellsNext(r, p, out, t, op, a, t');
      assert p + [op] == ops;
    }
  }

  /** After any run, an unforced move succeeds exactly when nothing has dirtied the ref since the last
      move, the expectation names what that move stored (or nothing, if there is nothing yet), and
      nothing later refuses it; otherwise the caller is shown a conflict, or told the reason. */
  lemma UnforcedSucceeds(l: Live, ops: seq<Op>, expected: Expect, hash: nat, create: bool, outcome: Outcome)
    ensures var (l', out) := RunCoalesced(l, ops);
            var reply := Coalesced(l', RefSet(expected, hash, create, false, outcome)).1;
            && |out| == |ops|
            && (reply.Done? <==>
                CleanNow(Current(l), ops, out) && Names(Current(l), ops, out, expected, create) && outcome == Accepted)
            && (reply.Conflict? <==>
                !(CleanNow(Current(l), ops, out) && Names(Current(l), ops, out, expected, create)))
            && (reply.Refused? ==> reply.why == outcome)
  {
    RunRefines(l, ops);
    RunTells(Current(l), ops);
    StepRefines(RunCoalesced(l, ops).0, RefSet(expected, hash, create, false, outcome));
  }

  /** Forced, only what comes after the comparison can refuse it. */
  lemma ForcedSucceeds(l: Live, expected: Expect, hash: nat, create: bool, outcome: Outcome)
    ensures var reply := Coalesced(l, RefSet(expected, hash, create, true, outcome)).1;
            reply == if outcome == Accepted then Done(Current(l).generation + 1) else Refused(outcome)
  {
  }

  /** A ref move or a snapshot changes the ref exactly when it is told so, and then to the hash it asked
      for, clean and one generation on. */
  lemma MovesWhenTold(l: Live, op: Op)
    requires op.RefSet? || op.Snapshot? || op.SnapshotFails?
    ensures var (l', reply) := Coalesced(l, op);
            && (Current(l') != Current(l) <==> reply.Done?)
            && (reply.Done? ==> Current(l') == Ref(false, Target(op), Current(l).generation + 1, false)
                                && reply.generation == Current(l').generation)
  {
  }

  /** Two clients that name the same hash: when both moves are unforced and the first succeeds in storing
      another hash, the second is refused, whatever touches and flushes come between. */
  lemma SecondWriterLoses(l: Live, ops: seq<Op>, between: seq<Op>, expected: nat, first: nat, second: nat)
    requires expected != first && (forall i :: 0 <= i < |between| ==> between[i].Touch? || between[i].Flush?)
    requires Coalesced(RunCoalesced(l, ops).0, RefSet(ExpectHash(expected), first, false, false, Accepted)).1.Done?
    ensures var after := RunCoalesced(l, ops + [RefSet(ExpectHash(expected), first, false, false, Accepted)] + between).0;
            Coalesced(after, RefSet(ExpectHash(expected), second, false, false, Accepted)).1.Conflict?
  {
    var all := ops + [RefSet(ExpectHash(expected), first, false, false, Accepted)];
    assert all[..|ops|] == ops;
    var out := RunCoalesced(l, all).1;
    RunLength(l, ops);
    assert LastMove(out) == |ops|;
    QuietBetween(l, all, between);
    UnforcedSucceeds(l, all + between, ExpectHash(expected), second, false, Accepted);
  }

  lemma {:induction false} RunLength(l: Live, ops: seq<Op>)
    ensures |RunCoalesced(l, ops).1| == |ops|
  {
    if ops != [] {
      RunLength(l, ops[..|ops| - 1]);
    }
  }

  lemma {:induction false} QuietBetween(l: Live, ops: seq<Op>, between: seq<Op>)
    requires forall i :: 0 <= i < |between| ==> between[i].Touch? || between[i].Flush?
    ensures LastMove(RunCoalesced(l, ops + between).1) == LastMove(RunCoalesced(l, ops).1)
    decreases |between|
  {
    if between == [] {
      assert ops + between == ops;
    } else {
      var all := ops + between;
      assert all[..|all| - 1] == ops + between[..|between| - 1];
      QuietBetween(l, ops, between[..|between| - 1]);
      var (l1, out) := RunCoalesced(l, all[..|all| - 1]);
      QuietThen(out, Coalesced(l1, between[|between| - 1]).1);
    }
  }

  lemma QuietThen(out: seq<Reply>, a: Reply)
    requires !a.Done?
    ensures LastMove(out + [a]) == LastMove(out)
  {
    assert (out + [a])[..|out|] == out;
  }
}
