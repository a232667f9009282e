/** The session thread's mutable state: the stage buffer, the transaction slots, and the queue and
    consumed count it shares with the render thread.

    What the render thread can see changes in atomic steps only, one method each, and every step is
    logged in the ghost trace `done`. Each method is proved to log exactly the actions of module
    Session, in their order, and `Valid` ties what is visible to the trace at every point between
    steps; these are the actions that the interleaved machine performs one by one. */
module SessionLoop {
  import opened Events
  import opened EventQueue
  import opened Session
  import opened EventPlane

  /** What the render thread can observe. */
  datatype Shared = Shared(queue: seq<Event>, drops: int, signals: nat, counted: nat)

  const EMPTY: Shared := Shared([], 0, 0, 0)

  function Effect(x: Shared, a: Action): Shared
  {
    match a
    case Run(evs) => x.(queue := PushEach(x.queue, evs), drops := x.drops + |evs| - (|PushEach(x.queue, evs)| - |x.queue|))
    case Batch(evs) =>
      x.(queue := PushAll(x.queue, evs), drops := x.drops + if |x.queue| + |evs| <= QUEUE_CAP then 0 else |evs|)
    case One(ev) => x.(queue := PushOne(x.queue, ev), drops := x.drops + if |x.queue| < QUEUE_CAP then 0 else 1)
    case OneUnlessFull(ev) =>
      if |x.queue| < QUEUE_CAP then x.(queue := x.queue + [ev]) else x.(signals := x.signals + 1)
    case Signal => x.(signals := x.signals + 1)
    case Count(k) => x.(counted := x.counted + k)
  }

  function Performed(x: Shared, todo: seq<Action>): Shared
  {
    if todo == [] then x else Effect(Performed(x, todo[..|todo| - 1]), todo[|todo| - 1])
  }

  lemma PerformedThen(x: Shared, todo: seq<Action>, a: Action)
    ensures Performed(x, todo + [a]) == Effect(Performed(x, todo), a)
  {
    assert (todo + [a])[..|todo|] == todo;
  }

  function SharedOf<E>(s: Plane<E>): Shared
  {
    Shared(s.queue, s.drops, s.signals, s.counted)
  }

  /** One action has the same effect here and in the interleaved machine. */
  lemma EffectIsAct<E>(s: Plane<E>)
    requires s.ses.todo != [] && |s.queue| <= QUEUE_CAP
    ensures SharedOf(DoAct(s)) == Effect(SharedOf(s), s.ses.todo[0])
  {
    var a := s.ses.todo[0];
    if a.Run? {
      PushEachKeepsPrefix(s.queue, a.evs);
    }
  }

  lemma {:induction false} PerformedAppend(x: Shared, a: seq<Action>, b: seq<Action>)
    ensures Performed(x, a + b) == Performed(Performed(x, a), b)
  {
    if b == [] {
      assert a + b == a;
    } else {
      var p, last := b[..|b| - 1], b[|b| - 1];
      PerformedAppend(x, a, p);
      assert (a + b)[..|a + b| - 1] == a + p;
    }
  }

  /** All remaining actions of the session, one after the other. */
  function Acted<E>(s: Plane<E>): Plane<E>
    decreases |s.ses.todo|
  {
    if s.ses.todo == [] then s else Acted(DoAct(s))
  }

  /** Performed without interruption, the machine's actions have the effect the class is proved to
      have. */
  lemma {:induction false} ActedIsPerformed<E>(s: Plane<E>)
    requires |s.queue| <= QUEUE_CAP
    ensures SharedOf(Acted(s)) == Performed(SharedOf(s), s.ses.todo)
    decreases |s.ses.todo|
  {
    var todo := s.ses.todo;
    if todo != [] {
      var s' := DoAct(s);
      EffectIsAct(s);
      PerformBounded(s, todo[0]);
      ActedIsPerformed(s');
      PerformedAppend(SharedOf(s), [todo[0]], todo[1..]);
      assert [todo[0]] + todo[1..] == todo;
      PerformedThen(SharedOf(s), [], todo[0]);
      assert [] + [todo[0]] == [todo[0]];
    }
  }

  lemma PerformBounded<E>(s: Plane<E>, a: Action)
    requires |s.queue| <= QUEUE_CAP
    ensures |Perform(s, a).queue| <= QUEUE_CAP
  {
    if a.Run? {
      PushEachKeepsPrefix(s.queue, a.evs);
    }
  }

  class SessionLoop {
    const queue: EventQueue
    const stage: array<Event>
    var staged: nat
    var slots: seq<Txn>
    var rejected: nat
    var overflow: nat
    var unknown: nat
    var signals: nat
    var consumed: nat
    ghost var done: seq<Action>

    ghost predicate Shape()
      reads this, queue
    {
      queue.Valid() && stage.Length == STAGE_CAP && staged <= STAGE_CAP && |slots| == TXN_MAX && queue.buf != stage
    }

    ghost function View(): Shared
      requires Shape()
      reads this, queue, queue.buf
    {
      Shared(queue.Contents(), queue.drops, signals, consumed)
    }

    /** What is visible is what the logged actions, in their order, have made of an empty start. */
    ghost predicate Valid()
      reads this, queue, queue.buf
    {
      Shape() && View() == Performed(EMPTY, done)
    }

    ghost function Staged(): seq<Event>
      requires Shape()
      reads this, queue, stage
    {
      stage[..staged]
    }

    ghost function Table(): Txns
      reads this
    {
      Txns(slots, rejected, overflow, unknown)
    }

    constructor (filler: Event)
      ensures Valid() && fresh(queue) && fresh(queue.buf) && fresh(stage)
      ensures done == [] && Staged() == [] && Table() == NO_TXNS
    {
      queue := new EventQueue(filler);
      stage := new Event[STAGE_CAP](_ => filler);
      slots := NO_TXNS.slots;
      staged, rejected, overflow, unknown, signals, consumed := 0, 0, 0, 0, 0, 0;
      done := [];
    }

    // ---------------- the atomic steps ----------------

    /** One critical section of the queue's mutex: a run of pushes. */
    method StepRun(evs: seq<Event>)
      requires Valid()
      modifies this`done, queue, queue.buf
      ensures Valid() && done == old(done) + [Run(evs)] && Staged() == old(Staged())
    {
      queue.PushRun(evs);
      PerformedThen(EMPTY, done, Run(evs));
      done := done + [Run(evs)];
    }

    method StepBatch(evs: seq<Event>)
      requires Valid()
      modifies this`done, queue, queue.buf
      ensures Valid() && done == old(done) + [Batch(evs)] && Staged() == old(Staged())
    {
      var _ := queue.PushBatch(evs);
      PerformedThen(EMPTY, done, Batch(evs));
      done := done + [Batch(evs)];
    }

    method StepOne(ev: Event)
      requires Valid()
      modifies this`done, queue, queue.buf
      ensures Valid() && done == old(done) + [One(ev)] && Staged() == old(Staged())
    {
      queue.Push(ev);
      PerformedThen(EMPTY, done, One(ev));
      done := done + [One(ev)];
    }

    /** A release that finds the queue full is applied at once instead of queued. */
    method StepOneUnlessFull(ev: Event)
      requires Valid()
      modifies this`done, this`signals, queue, queue.buf
      ensures Valid() && done == old(done) + [OneUnlessFull(ev)] && Staged() == old(Staged())
    {
      ghost var x := View();
      if queue.n >= QUEUE_CAP {
        signals := signals + 1;
        assert View() == Effect(x, OneUnlessFull(ev));
      } else {
        queue.Push(ev);
        assert View() == Effect(x, OneUnlessFull(ev));
      }
      PerformedThen(EMPTY, done, OneUnlessFull(ev));
      done := done + [OneUnlessFull(ev)];
    }

    method StepSignal()
      requires Valid()
      modifies this`done, this`signals
      ensures Valid() && done == old(done) + [Signal] && Staged() == old(Staged())
    {
      signals := signals + 1;
      PerformedThen(EMPTY, done, Signal);
      done := done + [Signal];
    }

    /** Publish that `k` more messages have been consumed. */
    method StepCount(k: nat)
      requires Valid()
      modifies this`done, this`consumed
      ensures Valid() && done == old(done) + [Count(k)] && Staged() == old(Staged())
    {
      consumed := consumed + k;
      PerformedThen(EMPTY, done, Count(k));
      done := done + [Count(k)];
    }

    // ---------------- the session's operations ----------------

    /** Push a run, and only then publish its length. */
    method PublishRun(run: seq<Event>)
      requires Valid() && run != []
      modifies this`consumed, this`done, queue, queue.buf
      ensures Valid() && Staged() == old(Staged()) && done == old(done) + FlushActions(run)
    {
      FlushLogged(done, run);
      StepRun(run);
      StepCount(|run|);
    }

    method StageFlush()
      requires Valid()
      modifies this`staged, this`consumed, this`done, queue, queue.buf
      ensures Valid() && Staged() == [] && Table() == old(Table())
      ensures done == old(done) + FlushActions(old(Staged()))
    {
      if staged == 0 {
        assert done + [] == done;
      } else {
        PublishRun(stage[..staged]);
        staged := 0;
      }
    }

    method StageAdd(ev: Event)
      requires Valid()
      modifies this`staged, this`consumed, this`done, stage, queue, queue.buf
      ensures Valid() && Table() == old(Table())
      ensures var full := |old(Staged())| >= STAGE_CAP;
              && Staged() == (if full then [] else old(Staged())) + [ev]
              && done == old(done) + if full then FlushActions(old(Staged())) else []
    {
      if staged >= STAGE_CAP {
        StageFlush();
      } else {
        assert done + [] == done;
      }
      stage[staged] := ev;
      staged := staged + 1;
    }

    method TxnFind(id: nat) returns (i: nat)
      requires Shape()
      ensures i == Find(slots, id)
    {
      i := 0;
      while i < |slots|
        invariant i <= |slots| && Find(slots, id) == i + Find(slots[i..], id)
      {
        if slots[i].open && slots[i].id == id {
          return;
        }
        assert slots[i..][1..] == slots[i + 1..];
        i := i + 1;
      }
    }

    /** The first free slot, or the number of slots. */
    method FreeSlot() returns (i: nat)
      requires Shape()
      ensures i == FindFree(slots)
    {
      i := 0;
      while i < |slots|
        invariant i <= |slots| && FindFree(slots) == i + FindFree(slots[i..])
      {
        if !slots[i].open {
          return;
        }
        assert slots[i..][1..] == slots[i + 1..];
        i := i + 1;
      }
    }

    method TxnBegin(id: nat)
      requires Valid()
      modifies this`slots, this`rejected
      ensures Valid() && done == old(done) && Staged() == old(Staged()) && Table() == BeginTxn(old(Table()), id)
    {
      if id == 0 {
        rejected := rejected + 1;
        return;
      }
      var dup := TxnFind(id);
      if dup < |slots| {
        rejected := rejected + 1;
        return;
      }
      var i := FreeSlot();
      if i < |slots| {
        slots := slots[i := Txn(true, id, [])];
      } else {
        rejected := rejected + 1;
      }
    }

    /** A tagged event: buffered in its open transaction, or swallowed and counted. */
    method TxnSubmit(id: nat, ev: Event)
      requires Valid()
      modifies this`slots, this`unknown, this`overflow
      ensures Valid() && done == old(done) && Staged() == old(Staged()) && Table() == SubmitTxn(old(Table()), id, ev)
    {
      var i := TxnFind(id);
      if i == |slots| {
        unknown := unknown + 1;
      } else if |slots[i].evs| >= TXN_EVENTS_MAX {
        overflow := overflow + 1;
      } else {
        slots := slots[i := slots[i].(evs := slots[i].evs + [ev])];
      }
    }

    /** Flush the run, then hand over a committed batch. */
    method FlushAndPush(batch: seq<Event>)
      requires Valid()
      modifies this`staged, this`consumed, this`done, queue, queue.buf
      ensures Valid() && Table() == old(Table()) && Staged() == []
      ensures done == old(done) + (FlushActions(old(Staged())) + if batch == [] then [] else [Batch(batch)])
    {
      ghost var d, flush := done, FlushActions(Staged());
      StageFlush();
      if batch != [] {
        StepBatch(batch);
        assert (d + flush) + [Batch(batch)] == d + (flush + [Batch(batch)]);
      } else {
        assert flush + [] == flush;
      }
    }

    method TxnCommit(id: nat, ts: nat)
      requires Valid()
      modifies this`slots, this`unknown, this`staged, this`consumed, this`done, queue, queue.buf
      ensures Valid() && Table() == CloseTxn(old(Table()), id)
      ensures Moved(old(done), old(Staged()), Work(old(Table()), Commit(id, ts)))
    {
      var i := TxnFind(id);
      CommitWork(Table(), id, ts, i);
      if i == |slots| {
        unknown := unknown + 1;
        return;
      }
      FlushAndPush(Restamp(slots[i].evs, ts));
      slots := slots[i := slots[i].(open := false)];
    }

    method TxnAbort(id: nat)
      requires Valid()
      modifies this`slots, this`unknown
      ensures Valid() && done == old(done) && Staged() == old(Staged()) && Table() == CloseTxn(old(Table()), id)
    {
      var i := TxnFind(id);
      if i == |slots| {
        unknown := unknown + 1;
      } else {
        slots := slots[i := slots[i].(open := false)];
      }
    }

    /** Since the trace `d` and the stage `run`: nothing happened and no work was due, or the run was
        flushed and the work done after it. */
    ghost predicate Moved(d: seq<Action>, run: seq<Event>, work: seq<Action>)
      requires Shape()
      reads this, stage, queue
    {
      || (work == [] && Staged() == run && done == d)
      || (Staged() == [] && done == d + (FlushActions(run) + work))
    }

    /** The queue work of a note, a release or a panic. */
    method PushNow(ev: Event, release: bool, panic: bool)
      requires Valid()
      modifies this`signals, this`done, queue, queue.buf
      ensures Valid() && Staged() == old(Staged()) && done == old(done) + NowActions(ev, release, panic)
    {
      if panic {
        StepSignal();
        StepOneUnlessFull(ev);
      } else if release {
        StepOneUnlessFull(ev);
      } else {
        StepOne(ev);
      }
    }

    /** A note, a release or a panic: flushed first, signalled and pushed next. */
    method Immediate(ev: Event, release: bool, panic: bool)
      requires Valid()
      modifies this`staged, this`consumed, this`signals, this`done, queue, queue.buf
      ensures Valid() && Table() == old(Table())
      ensures Moved(old(done), old(Staged()), NowActions(ev, release, panic))
    {
      Regroup(done, FlushActions(Staged()), NowActions(ev, release, panic));
      StageFlush();
      PushNow(ev, release, panic);
    }

    /** A message that is not staged, up to its own count. */
    method HandleMsg(msg: Msg)
      requires Valid() && !Stages(msg)
      modifies this, queue, queue.buf
      ensures Valid() && Table() == TxnsAfter(old(Table()), msg)
      ensures Moved(old(done), old(Staged()), Work(old(Table()), msg))
    {
      match msg {
        case Submit(id, ev) => TxnSubmit(id, ev);
        case Push(ev) => Immediate(ev, false, false);
        case Release(ev) => Immediate(ev, true, false);
        case Panic(ev) => Immediate(ev, true, true);
        case Begin(id) => TxnBegin(id);
        case Commit(id, ts) => TxnCommit(id, ts);
        case Abort(id) => TxnAbort(id);
        case Rejected =>
      }
    }

    /** A message that is not staged: the flush, its work and its own count, in this order. */
    method HandleAndCount(msg: Msg)
      requires Valid() && !Stages(msg)
      modifies this, queue, queue.buf
      ensures Valid() && Staged() == [] && Table() == TxnsAfter(old(Table()), msg)
      ensures done == old(done) + (FlushActions(old(Staged())) + Work(old(Table()), msg) + [Count(1)])
    {
      ghost var d, flush, work := done, FlushActions(Staged()), Work(Table(), msg);
      HandleMsg(msg);
      StageFlush();
      StepCount(1);
      Logged(d, flush, work, done);
    }

    /** Consume one message: the actions of `Handle`, in their order and no others, are taken, and what
        the render thread can see is their effect. */
    method Consume(msg: Msg)
      requires Valid()
      modifies this, stage, queue, queue.buf
      ensures Valid()
      ensures var s := Handle(Ses(0, old(Staged()), old(Table()), []), msg);
              && Staged() == s.stage && Table() == s.t
              && done == old(done) + s.todo && View() == Performed(old(View()), s.todo)
    {
      ghost var d, todo := done, Handle(Ses(0, Staged(), Table(), []), msg).todo;
      PerformedAppend(EMPTY, d, todo);
      if msg.Submit? && msg.id == 0 {
        StageAdd(msg.ev);
      } else {
        HandleAndCount(msg);
      }
    }
  }

  function NowActions(ev: Event, release: bool, panic: bool): seq<Action>
  {
    if panic then [Signal, OneUnlessFull(ev)] else if release then [OneUnlessFull(ev)] else [One(ev)]
  }

  /** What a commit does, with the slot it found. */
  lemma CommitWork(t: Txns, id: nat, ts: nat, i: nat)
    requires i == Find(t.slots, id)
    ensures i == |t.slots| ==> Work(t, Commit(id, ts)) == [] && CloseTxn(t, id) == t.(unknown := t.unknown + 1)
    ensures i < |t.slots| ==>
      var batch := Restamp(t.slots[i].evs, ts);
      && Work(t, Commit(id, ts)) == (if batch == [] then [] else [Batch(batch)])
      && CloseTxn(t, id) == t.(slots := t.slots[i := t.slots[i].(open := false)])
  {
  }

  lemma Regroup(d: seq<Action>, flush: seq<Action>, work: seq<Action>)
    ensures (d + flush) + work == d + (flush + work)
  {
  }

  lemma FlushLogged(d: seq<Action>, run: seq<Event>)
    requires run != []
    ensures d + [Run(run)] + [Count(|run|)] == d + FlushActions(run)
  {
  }

  lemma Logged(d: seq<Action>, flush: seq<Action>, work: seq<Action>, done: seq<Action>)
    requires (work == [] && done == (d + flush) + [Count(1)]) || done == ((d + (flush + work)) + []) + [Count(1)]
    ensures done == d + (flush + work + [Count(1)])
  {
  }
}
