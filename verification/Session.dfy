/** The session thread's half of the event plane: transactions, staging of untagged events into
    runs, and the published count of consumed messages. Messages are taken already decoded. */
module Session {
  import opened Events

  const STAGE_CAP: nat := 64
  const TXN_MAX: nat := 4
  const TXN_EVENTS_MAX: nat := 256

  /** A decoded message of the event stream. `Submit` carries the transaction id, 0 for untagged;
      `Rejected` stands for everything that is counted and otherwise ignored. */
  datatype Msg =
    | Rejected
    | Submit(id: nat, ev: Event)
    | Push(ev: Event)
    | Release(ev: Event)
    | Panic(ev: Event)
    | Begin(id: nat)
    | Commit(id: nat, ts: nat)
    | Abort(id: nat)

  /** Events that enter the queue together: a committed batch, or one event on its own. */
  type Block = seq<Event>

  // ---------------- the transaction table ----------------

  datatype Txn = Txn(open: bool, id: nat, evs: seq<Event>)

  datatype Txns = Txns(slots: seq<Txn>, rejected: nat, overflow: nat, unknown: nat)

  const CLOSED: Txn := Txn(false, 0, [])

  const NO_TXNS: Txns := Txns([CLOSED, CLOSED, CLOSED, CLOSED], 0, 0, 0)

  /** The first open slot holding `id`, or the number of slots. */
  function Find(slots: seq<Txn>, id: nat): (i: nat)
    ensures i <= |slots|
    ensures i < |slots| ==> slots[i].open && slots[i].id == id
    ensures forall j :: 0 <= j < i ==> !(slots[j].open && slots[j].id == id)
  {
    if slots == [] then 0 else if slots[0].open && slots[0].id == id then 0 else 1 + Find(slots[1..], id)
  }

  function FindFree(slots: seq<Txn>): (i: nat)
    ensures i <= |slots|
    ensures i < |slots| ==> !slots[i].open
    ensures forall j :: 0 <= j < i ==> slots[j].open
  {
    if slots == [] then 0 else if !slots[0].open then 0 else 1 + FindFree(slots[1..])
  }

  function BeginTxn(t: Txns, id: nat): Txns
  {
    if id == 0 || Find(t.slots, id) < |t.slots| then t.(rejected := t.rejected + 1)
    else
      var i := FindFree(t.slots);
      if i < |t.slots| then t.(slots := t.slots[i := Txn(true, id, [])]) else t.(rejected := t.rejected + 1)
  }

  function SubmitTxn(t: Txns, id: nat, ev: Event): Txns
  {
    var i := Find(t.slots, id);
    if i == |t.slots| then t.(unknown := t.unknown + 1)
    else if |t.slots[i].evs| >= TXN_EVENTS_MAX then t.(overflow := t.overflow + 1)
    else t.(slots := t.slots[i := t.slots[i].(evs := t.slots[i].evs + [ev])])
  }

  function CloseTxn(t: Txns, id: nat): Txns
  {
    var i := Find(t.slots, id);
    if i == |t.slots| then t.(unknown := t.unknown + 1)
    else t.(slots := t.slots[i := t.slots[i].(open := false)])
  }

  function Restamp(evs: seq<Event>, ts: nat): (r: seq<Event>)
    ensures |r| == |evs|
  {
    seq(|evs|, i requires 0 <= i < |evs| => evs[i].(ts := ts))
  }

  function BatchOf(t: Txns, id: nat, ts: nat): Block
  {
    var i := Find(t.slots, id);
    if i == |t.slots| then [] else Restamp(t.slots[i].evs, ts)
  }

  // ---------------- one message at a time ----------------

  function TxnsAfter(t: Txns, m: Msg): Txns
  {
    match m
    case Submit(id, ev) => if id == 0 then t else SubmitTxn(t, id, ev)
    case Begin(id) => BeginTxn(t, id)
    case Commit(id, _) => CloseTxn(t, id)
    case Abort(id) => CloseTxn(t, id)
    case _ => t
  }

  /** What the message hands to the queue when it is consumed on its own. */
  function Emitted(t: Txns, m: Msg): seq<Block>
  {
    match m
    case Submit(id, ev) => if id == 0 then [[ev]] else []
    case Push(ev) => [[ev]]
    case Release(ev) => [[ev]]
    case Panic(ev) => [[ev]]
    case Commit(id, ts) => if BatchOf(t, id, ts) == [] then [] else [BatchOf(t, id, ts)]
    case _ => []
  }

  function SpecTxns(msgs: seq<Msg>, k: nat): Txns
    requires k <= |msgs|
  {
    if k == 0 then NO_TXNS else TxnsAfter(SpecTxns(msgs, k - 1), msgs[k - 1])
  }

  /** The blocks the first `k` messages hand to the queue, in message order. */
  function SpecBlocks(msgs: seq<Msg>, k: nat): seq<Block>
    requires k <= |msgs|
  {
    if k == 0 then [] else SpecBlocks(msgs, k - 1) + Emitted(SpecTxns(msgs, k - 1), msgs[k - 1])
  }

  lemma {:induction false} SpecGrows(msgs: seq<Msg>, j: nat, k: nat)
    requires j <= k <= |msgs|
    ensures SpecBlocks(msgs, j) <= SpecBlocks(msgs, k)
    decreases k
  {
    if j < k {
      SpecGrows(msgs, j, k - 1);
    }
  }

  // ---------------- the batching session ----------------

  /** One atomic action of the session thread as the render thread can see it. */
  datatype Action =
    | Run(evs: seq<Event>)
    | Batch(evs: seq<Event>)
    | One(ev: Event)
    | OneUnlessFull(ev: Event)
    | Signal
    | Count(k: nat)

  datatype Ses = Ses(m: nat, stage: seq<Event>, t: Txns, todo: seq<Action>)

  function FlushActions(stage: seq<Event>): seq<Action>
  {
    if stage == [] then [] else [Run(stage), Count(|stage|)]
  }

  /** The queue work of a message that is not staged, between the flush and its own count. */
  function Work(t: Txns, m: Msg): seq<Action>
  {
    match m
    case Push(ev) => [One(ev)]
    case Release(ev) => [OneUnlessFull(ev)]
    case Panic(ev) => [Signal, OneUnlessFull(ev)]
    case Commit(id, ts) => if BatchOf(t, id, ts) == [] then [] else [Batch(BatchOf(t, id, ts))]
    case _ => []
  }

  predicate Stages(m: Msg)
  {
    m.Submit? && m.id == 0
  }

  /** Consume one message: stage it, or flush the run, do its queue work and count it. */
  function Handle(s: Ses, m: Msg): Ses
    requires s.todo == []
  {
    if Stages(m) then
      if |s.stage| >= STAGE_CAP then Ses(s.m + 1, [m.ev], s.t, FlushActions(s.stage))
      else s.(m := s.m + 1, stage := s.stage + [m.ev])
    else Ses(s.m + 1, [], TxnsAfter(s.t, m), FlushActions(s.stage) + Work(s.t, m) + [Count(1)])
  }

  /** The flush taken when no more input is ready, or before a control or object message. */
  function Flush(s: Ses): Ses
    requires s.todo == []
  {
    s.(stage := [], todo := FlushActions(s.stage))
  }

  function Singles(evs: seq<Event>): seq<Block>
  {
    seq(|evs|, i requires 0 <= i < |evs| => [evs[i]])
  }

  function Handed(a: Action): seq<Block>
  {
    match a
    case Run(evs) => Singles(evs)
    case Batch(evs) => [evs]
    case One(ev) => [[ev]]
    case OneUnlessFull(ev) => [[ev]]
    case _ => []
  }

  function Counted(a: Action): nat
  {
    if a.Count? then a.k else 0
  }

  /** The published count after one more action. */
  function Tally(counted: nat, a: Action): (n: nat)
    ensures n == counted + Counted(a)
  {
    counted + Counted(a)
  }

  /** What the batching session owes the per-message one. Now and after every remaining action, the
      blocks of the counted messages have all been handed over; at the end of the actions the
      blocks handed over and the staged run together are those of the consumed messages. */
  ghost predicate Owes(msgs: seq<Msg>, todo: seq<Action>, handed: seq<Block>, counted: nat, stage: seq<Event>, m: nat)
    requires m <= |msgs|
    decreases |todo|
  {
    && counted <= m
    && SpecBlocks(msgs, counted) <= handed
    && if todo == [] then handed + Singles(stage) == SpecBlocks(msgs, m) && counted + |stage| == m
       else Owes(msgs, todo[1..], handed + Handed(todo[0]), Tally(counted, todo[0]), stage, m)
  }

  ghost predicate Tracks(msgs: seq<Msg>, s: Ses, handed: seq<Block>, counted: nat)
  {
    && s.m <= |msgs| && s.t == SpecTxns(msgs, s.m) && |s.stage| <= STAGE_CAP
    && Owes(msgs, s.todo, handed, counted, s.stage, s.m)
  }

  lemma OwesCons(msgs: seq<Msg>, a: Action, todo: seq<Action>, handed: seq<Block>, counted: nat,
        stage: seq<Event>, m: nat)
    requires counted <= m <= |msgs| && SpecBlocks(msgs, counted) <= handed
    requires Owes(msgs, todo, handed + Handed(a), Tally(counted, a), stage, m)
    ensures Owes(msgs, [a] + todo, handed, counted, stage, m)
  {
    assert ([a] + todo)[1..] == todo;
  }

  /** The same step with the state after the action named by the caller. */
  lemma OwesThen(msgs: seq<Msg>, a: Action, todo: seq<Action>, handed: seq<Block>, counted: nat,
        handed': seq<Block>, counted': nat, stage: seq<Event>, m: nat)
    requires counted <= m <= |msgs| && SpecBlocks(msgs, counted) <= handed
    requires handed' == handed + Handed(a) && counted' == Tally(counted, a)
    requires Owes(msgs, todo, handed', counted', stage, m)
    ensures Owes(msgs, [a] + todo, handed, counted, stage, m)
  {
    OwesCons(msgs, a, todo, handed, counted, stage, m);
  }

  /** A run that is flushed: its events and its count are all that was owed. */
  lemma OwesRun(msgs: seq<Msg>, stage: seq<Event>, handed: seq<Block>, counted: nat, m: nat, rest: seq<Action>,
        next: seq<Event>, m': nat, done: seq<Block>)
    requires m <= m' <= |msgs| && done == SpecBlocks(msgs, m) && done == handed + Singles(stage)
    requires counted + |stage| == m && SpecBlocks(msgs, counted) <= handed
    requires Owes(msgs, rest, done, m, next, m')
    ensures Owes(msgs, [Run(stage)] + ([Count(|stage|)] + rest), handed, counted, next, m')
  {
    assert SpecBlocks(msgs, counted) <= done by { SpecGrows(msgs, counted, m); }
    assert done + Handed(Count(|stage|)) == done;
    OwesThen(msgs, Count(|stage|), rest, done, counted, done, m, next, m');
    OwesThen(msgs, Run(stage), [Count(|stage|)] + rest, handed, counted, done, counted, next, m');
  }

  lemma OwesFlush(msgs: seq<Msg>, stage: seq<Event>, handed: seq<Block>, counted: nat, m: nat, rest: seq<Action>,
        next: seq<Event>, m': nat)
    requires m <= m' <= |msgs| && Owes(msgs, [], handed, counted, stage, m)
    requires Owes(msgs, rest, SpecBlocks(msgs, m), m, next, m')
    ensures Owes(msgs, FlushActions(stage) + rest, handed, counted, next, m')
  {
    if stage == [] {
      assert handed + Singles(stage) == handed;
      assert FlushActions(stage) + rest == rest;
    } else {
      OwesRun(msgs, stage, handed, counted, m, rest, next, m', SpecBlocks(msgs, m));
      assert [Run(stage)] + ([Count(|stage|)] + rest) == FlushActions(stage) + rest;
    }
  }

  lemma HandleTracks(msgs: seq<Msg>, s: Ses, handed: seq<Block>, counted: nat)
    requires s.m < |msgs| && s.todo == [] && Tracks(msgs, s, handed, counted)
    ensures Tracks(msgs, Handle(s, msgs[s.m]), handed, counted)
  {
    var msg, m := msgs[s.m], s.m;
    if Stages(msg) {
      HandleStages(msgs, s, handed, counted);
    } else {
      HandleWorks(msgs, s.stage, handed, counted, m, Work(s.t, msg));
    }
  }

  lemma HandleWorks(msgs: seq<Msg>, stage: seq<Event>, handed: seq<Block>, counted: nat, m: nat, w: seq<Action>)
    requires m < |msgs| && !Stages(msgs[m]) && Owes(msgs, [], handed, counted, stage, m)
    requires w == Work(SpecTxns(msgs, m), msgs[m])
    ensures Owes(msgs, FlushActions(stage) + w + [Count(1)], handed, counted, [], m + 1)
  {
    WorkHands(msgs, m);
    OwesFlush(msgs, stage, handed, counted, m, w + [Count(1)], [], m + 1);
    assert FlushActions(stage) + (w + [Count(1)]) == FlushActions(stage) + w + [Count(1)];
  }

  lemma HandleStages(msgs: seq<Msg>, s: Ses, handed: seq<Block>, counted: nat)
    requires s.m < |msgs| && s.todo == [] && Tracks(msgs, s, handed, counted) && Stages(msgs[s.m])
    ensures Tracks(msgs, Handle(s, msgs[s.m]), handed, counted)
  {
    var m := s.m;
    if |s.stage| >= STAGE_CAP {
      StagesFresh(msgs, s.stage, handed, counted, m, msgs[m].ev);
    } else {
      StagesMore(msgs, s.stage, handed, counted, m, msgs[m].ev);
    }
  }

  /** A full stage is flushed and the event starts the next run. */
  lemma StagesFresh(msgs: seq<Msg>, stage: seq<Event>, handed: seq<Block>, counted: nat, m: nat, ev: Event)
    requires m < |msgs| && Stages(msgs[m]) && ev == msgs[m].ev && Owes(msgs, [], handed, counted, stage, m)
    ensures Owes(msgs, FlushActions(stage), handed, counted, [ev], m + 1)
  {
    assert SpecBlocks(msgs, m + 1) == SpecBlocks(msgs, m) + [[ev]];
    assert Singles([ev]) == [[ev]];
    OwesFlush(msgs, stage, handed, counted, m, [], [ev], m + 1);
    assert FlushActions(stage) + [] == FlushActions(stage);
  }

  /** Otherwise the run grows by the event. */
  lemma StagesMore(msgs: seq<Msg>, stage: seq<Event>, handed: seq<Block>, counted: nat, m: nat, ev: Event)
    requires m < |msgs| && Stages(msgs[m]) && ev == msgs[m].ev && Owes(msgs, [], handed, counted, stage, m)
    ensures Owes(msgs, [], handed, counted, stage + [ev], m + 1)
  {
    assert SpecBlocks(msgs, m + 1) == SpecBlocks(msgs, m) + [[ev]];
    assert Singles(stage + [ev]) == Singles(stage) + [[ev]];
    assert handed + (Singles(stage) + [[ev]]) == handed + Singles(stage) + [[ev]];
  }

  lemma WorkShape(t: Txns, m: Msg)
    requires !Stages(m)
    ensures Hands(Work(t, m), Emitted(t, m))
  {
  }

  lemma WorkHands(msgs: seq<Msg>, m: nat)
    requires m < |msgs| && !Stages(msgs[m])
    ensures Owes(msgs, Work(SpecTxns(msgs, m), msgs[m]) + [Count(1)], SpecBlocks(msgs, m), m, [], m + 1)
  {
    var t := SpecTxns(msgs, m);
    WorkShape(t, msgs[m]);
    OwesWork(msgs, Work(t, msgs[m]), SpecBlocks(msgs, m), Emitted(t, msgs[m]), m);
  }

  /** `w` is at most a signal and one push, and hands over `out`. */
  ghost predicate Hands(w: seq<Action>, out: seq<Block>)
  {
    && |w| <= 2
    && (w == [] ==> out == [])
    && (|w| == 1 ==> out == Handed(w[0]) && Counted(w[0]) == 0)
    && (|w| == 2 ==> Handed(w[0]) == [] && out == Handed(w[1]) && Counted(w[0]) == Counted(w[1]) == 0)
  }

  lemma OwesWork(msgs: seq<Msg>, w: seq<Action>, done: seq<Block>, out: seq<Block>, m: nat)
    requires m < |msgs| && Hands(w, out) && done == SpecBlocks(msgs, m) && done + out == SpecBlocks(msgs, m + 1)
    ensures Owes(msgs, w + [Count(1)], done, m, [], m + 1)
  {
    var all := done + out;
    OwesLast(msgs, all, m);
    if w == [] {
      assert w + [Count(1)] == [Count(1)] && all == done;
    } else if |w| == 1 {
      OwesThen(msgs, w[0], [Count(1)], done, m, all, m, [], m + 1);
      assert [w[0]] + [Count(1)] == w + [Count(1)];
    } else {
      OwesThen(msgs, w[1], [Count(1)], done, m, all, m, [], m + 1);
      OwesThen(msgs, w[0], [w[1]] + [Count(1)], done, m, done, m, [], m + 1);
      assert [w[0]] + ([w[1]] + [Count(1)]) == w + [Count(1)];
    }
  }

  lemma OwesLast(msgs: seq<Msg>, all: seq<Block>, m: nat)
    requires m < |msgs| && all == SpecBlocks(msgs, m + 1)
    ensures Owes(msgs, [Count(1)], all, m, [], m + 1)
  {
    assert all + Singles([]) == all && all + [] == all;
    OwesCons(msgs, Count(1), [], all, m, [], m + 1);
    assert [Count(1)] + [] == [Count(1)];
  }

  lemma FlushTracks(msgs: seq<Msg>, s: Ses, handed: seq<Block>, counted: nat)
    requires s.todo == [] && Tracks(msgs, s, handed, counted)
    ensures Tracks(msgs, Flush(s), handed, counted)
  {
    var done := SpecBlocks(msgs, s.m);
    assert done + Singles([]) == done;
    OwesFlush(msgs, s.stage, handed, counted, s.m, [], [], s.m);
    assert FlushActions(s.stage) + [] == FlushActions(s.stage);
  }

  lemma ActionTracks(msgs: seq<Msg>, s: Ses, handed: seq<Block>, counted: nat)
    requires s.todo != [] && Tracks(msgs, s, handed, counted)
    ensures Tracks(msgs, s.(todo := s.todo[1..]), handed + Handed(s.todo[0]), Tally(counted, s.todo[0]))
  {
  }
}
