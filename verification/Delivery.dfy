/** Where every event goes, in every interleaving: what the consumed messages hand over is applied,
    queued, staged or still to be pushed, or it is counted as lost. Nothing disappears, and in a run
    without drops and signals nothing is lost. */
module Delivery {
  import opened Events
  import opened Segments
  import opened EventQueue
  import opened Session
  import opened Transactions
  import opened EventPlane
  import opened Determinism
  import opened Atomicity

  // ---------------- what the messages hand over ----------------

  /** The message hands over its own event: it is untagged. */
  predicate HandsOwn(m: Msg)
  {
    (m.Submit? && m.id == 0) || m.Push? || m.Release? || m.Panic?
  }

  /** An untagged message hands over exactly its own event, and a message that is neither untagged nor a
      commit hands over nothing. */
  lemma OwnHandsOver(msgs: seq<Msg>, k: nat)
    requires k < |msgs|
    ensures HandsOwn(msgs[k]) ==> SpecBlocks(msgs, k + 1) == SpecBlocks(msgs, k) + [[msgs[k].ev]]
    ensures !HandsOwn(msgs[k]) && !msgs[k].Commit? ==> SpecBlocks(msgs, k + 1) == SpecBlocks(msgs, k)
  {
  }

  /** The events of the untagged messages, in message order. */
  ghost function OwnEvents(msgs: seq<Msg>, k: nat): seq<Event>
    requires k <= |msgs|
  {
    if k == 0 then []
    else
      var rest, m := OwnEvents(msgs, k - 1), msgs[k - 1];
      if HandsOwn(m) then rest + [m.ev] else rest
  }

  /** What a message commits: the events buffered under the id it closes, at the commit instant. */
  ghost function CommittedBy(msgs: seq<Msg>, k: nat): (r: seq<Event>)
    requires k < |msgs|
    ensures msgs[k].Commit? && msgs[k].id in OpenIds(msgs, k) ==>
      && |r| == |Buffered(msgs, k, msgs[k].id)|
      && forall i :: 0 <= i < |r| ==> r[i] == Buffered(msgs, k, msgs[k].id)[i].(ts := msgs[k].ts)
  {
    var m := msgs[k];
    if m.Commit? && m.id in OpenIds(msgs, k) then Restamp(Buffered(msgs, k, m.id), m.ts) else []
  }

  /** The events of the committed transactions, in commit order. */
  ghost function CommittedEvents(msgs: seq<Msg>, k: nat): seq<Event>
    requires k <= |msgs|
  {
    if k == 0 then [] else CommittedEvents(msgs, k - 1) + CommittedBy(msgs, k - 1)
  }

  ghost function Panics(msgs: seq<Msg>, k: nat): nat
    requires k <= |msgs|
  {
    if k == 0 then 0 else Panics(msgs, k - 1) + if msgs[k - 1].Panic? then 1 else 0
  }

  /** Appending a block appends its events; an empty one may as well not be there. */
  lemma FlattenOptional(bs: seq<Block>, b: Block)
    ensures Flatten(bs + if b == [] then [] else [b]) == Flatten(bs) + b
  {
    if b == [] {
      assert bs + [] == bs && Flatten(bs) + b == Flatten(bs);
    } else {
      FlattenAppend(bs, [b]);
      FlattenOne(b);
    }
  }

  lemma CommitAdds(msgs: seq<Msg>, k: nat, id: nat, ts: nat)
    requires k < |msgs| && msgs[k] == Commit(id, ts)
    ensures SpecBlocks(msgs, k + 1) == SpecBlocks(msgs, k) + if CommittedBy(msgs, k) == [] then [] else [CommittedBy(msgs, k)]
  {
    CommitHandsOver(msgs, k, id, ts);
  }

  /** What one message adds: its own event, or what it commits. */
  ghost function AddedBy(msgs: seq<Msg>, k: nat): seq<Event>
    requires k < |msgs|
  {
    if HandsOwn(msgs[k]) then [msgs[k].ev] else CommittedBy(msgs, k)
  }

  lemma BlocksAdd(msgs: seq<Msg>, k: nat, k': nat)
    requires k' == k + 1 <= |msgs|
    ensures SpecBlocks(msgs, k') == SpecBlocks(msgs, k) + if AddedBy(msgs, k) == [] then [] else [AddedBy(msgs, k)]
  {
    if msgs[k].Commit? {
      CommitAdds(msgs, k, msgs[k].id, msgs[k].ts);
    } else {
      OwnHandsOver(msgs, k);
    }
  }

  lemma HandsOne(msgs: seq<Msg>, k: nat, k': nat)
    requires k' == k + 1 <= |msgs|
    ensures Flatten(SpecBlocks(msgs, k')) == Flatten(SpecBlocks(msgs, k)) + AddedBy(msgs, k)
  {
    BlocksAdd(msgs, k, k');
    FlattenOptional(SpecBlocks(msgs, k), AddedBy(msgs, k));
  }

  /** The blocks of the first `k` messages hold the untagged and the committed events, each once. */
  lemma {:induction false} HandedContents(msgs: seq<Msg>, k: nat)
    requires k <= |msgs|
    ensures multiset(Flatten(SpecBlocks(msgs, k))) == multiset(OwnEvents(msgs, k)) + multiset(CommittedEvents(msgs, k))
  {
    if k > 0 {
      var p := k - 1;
      HandedContents(msgs, p);
      HandsOne(msgs, p, k);
      ContentsGrow(Flatten(SpecBlocks(msgs, p)), Flatten(SpecBlocks(msgs, k)), msgs, p, k);
    }
  }

  lemma ContentsGrow(all: seq<Event>, all': seq<Event>, msgs: seq<Msg>, p: nat, k: nat)
    requires k == p + 1 <= |msgs| && all' == all + AddedBy(msgs, p)
    requires multiset(all) == multiset(OwnEvents(msgs, p)) + multiset(CommittedEvents(msgs, p))
    ensures multiset(all') == multiset(OwnEvents(msgs, k)) + multiset(CommittedEvents(msgs, k))
  {
    var own, com, d := OwnEvents(msgs, p), CommittedEvents(msgs, p), CommittedBy(msgs, p);
    NextEvents(msgs, p, k);
    if HandsOwn(msgs[p]) {
      AddLeft(all, own, com, [msgs[p].ev]);
    } else {
      AddRight(all, own, com, d);
    }
  }

  lemma NextEvents(msgs: seq<Msg>, p: nat, k: nat)
    requires k == p + 1 <= |msgs|
    ensures OwnEvents(msgs, k) == if HandsOwn(msgs[p]) then OwnEvents(msgs, p) + [msgs[p].ev] else OwnEvents(msgs, p)
    ensures CommittedEvents(msgs, k) == CommittedEvents(msgs, p) + CommittedBy(msgs, p)
    ensures HandsOwn(msgs[p]) ==> CommittedEvents(msgs, k) == CommittedEvents(msgs, p)
  {
  }

  lemma AddLeft(all: seq<Event>, own: seq<Event>, com: seq<Event>, x: seq<Event>)
    requires multiset(all) == multiset(own) + multiset(com)
    ensures multiset(all + x) == multiset(own + x) + multiset(com)
  {
  }

  lemma AddRight(all: seq<Event>, own: seq<Event>, com: seq<Event>, x: seq<Event>)
    requires multiset(all) == multiset(own) + multiset(com)
    ensures multiset(all + x) == multiset(own) + multiset(com + x)
  {
  }

  // ---------------- what is still on its way ----------------

  ghost function HandedBy(todo: seq<Action>): seq<Block>
  {
    if todo == [] then [] else Handed(todo[0]) + HandedBy(todo[1..])
  }

  ghost function SignalsIn(todo: seq<Action>): nat
  {
    if todo == [] then 0 else (if todo[0].Signal? then 1 else 0) + SignalsIn(todo[1..])
  }

  /** The events of consumed messages that have not been pushed yet: those of the actions still to take,
      then the staged run. */
  ghost function Underway(ses: Ses): seq<Event>
  {
    Flatten(HandedBy(ses.todo)) + ses.stage
  }

  lemma {:induction false} OwesTotal(msgs: seq<Msg>, todo: seq<Action>, handed: seq<Block>, counted: nat,
        stage: seq<Event>, m: nat)
    requires m <= |msgs| && Owes(msgs, todo, handed, counted, stage, m)
    ensures SpecBlocks(msgs, m) == handed + HandedBy(todo) + Singles(stage)
    decreases |todo|
  {
    if todo == [] {
      assert handed + [] == handed;
    } else {
      OwesTotal(msgs, todo[1..], handed + Handed(todo[0]), Tally(counted, todo[0]), stage, m);
      ThreeAgain(handed, Handed(todo[0]), HandedBy(todo[1..]), Singles(stage));
    }
  }

  lemma ThreeAgain(a: seq<Block>, b: seq<Block>, c: seq<Block>, d: seq<Block>)
    ensures (a + b) + c + d == a + (b + c) + d
  {
  }

  /** At every point of every run, what was handed over and what is underway are the events of the
      consumed messages, in message order. */
  lemma HandedAndUnderway<E>(c: Script<E>, moves: seq<Move>)
    ensures var s := After(c, moves);
            s.ses.m <= |c.msgs| && Flatten(SpecBlocks(c.msgs, s.ses.m)) == Flatten(s.handed) + Underway(s.ses)
  {
    var s := After(c, moves);
    SesAlways(c, moves);
    OwesTotal(c.msgs, s.ses.todo, s.handed, s.counted, s.ses.stage, s.ses.m);
    FlattenThree(s.handed, HandedBy(s.ses.todo), s.ses.stage);
  }

  lemma FlattenThree(h: seq<Block>, t: seq<Block>, stage: seq<Event>)
    ensures Flatten(h + t + Singles(stage)) == Flatten(h) + (Flatten(t) + stage)
  {
    assert Flatten(h + t + Singles(stage)) == Flatten(h + t) + stage by {
      FlattenAppend(h + t, Singles(stage));
      FlattenSingles(stage);
    }
    assert Flatten(h + t) == Flatten(h) + Flatten(t) by { FlattenAppend(h, t); }
    var x, y := Flatten(h), Flatten(t);
    assert (x + y) + stage == x + (y + stage);
  }

  // ---------------- applied and queued are the accepted ----------------

  ghost function EventsOf(t: seq<Applied>): (r: seq<Event>)
    ensures |r| == |t| && forall i :: 0 <= i < |t| ==> r[i] == t[i].ev
  {
    seq(|t|, i requires 0 <= i < |t| => t[i].ev)
  }

  ghost predicate Conserved(accepted: seq<Block>, history: seq<Applied>, queue: seq<Event>)
  {
    multiset(EventsOf(history)) + multiset(queue) == multiset(Flatten(accepted))
  }

  lemma ConservedAct(accepted: seq<Block>, history: seq<Applied>, queue: seq<Event>, more: seq<Block>)
    requires Conserved(accepted, history, queue)
    ensures Conserved(accepted + more, history, queue + Flatten(more))
  {
    FlattenAppend(accepted, more);
  }

  lemma ConservedDraw(accepted: seq<Block>, history: seq<Applied>, queue: seq<Event>, pos: nat, next: nat)
    requires Conserved(accepted, history, queue)
    ensures Conserved(accepted, history + Stamp(Before(queue, next), pos), From(queue, next))
  {
    var due, rest := Before(queue, next), From(queue, next);
    assert multiset(queue) == multiset(due) + multiset(rest) by { FromBound(queue, next); }
    EventsOfDrawn(history, due, pos);
    MovedOver(EventsOf(history), due, rest, multiset(queue), multiset(Flatten(accepted)));
  }

  lemma EventsOfDrawn(history: seq<Applied>, due: seq<Event>, pos: nat)
    ensures EventsOf(history + Stamp(due, pos)) == EventsOf(history) + due
  {
  }

  lemma MovedOver(h: seq<Event>, due: seq<Event>, rest: seq<Event>, queue: multiset<Event>, all: multiset<Event>)
    requires multiset(h) + queue == all && queue == multiset(due) + multiset(rest)
    ensures multiset(h + due) + multiset(rest) == all
  {
  }

  lemma ConservedNext<E>(c: Script<E>, s: Plane<E>, mv: Move)
    requires |s.queue| <= QUEUE_CAP && Conserved(s.accepted, s.au.history, s.queue)
    ensures var s' := Next(c, s, mv); Conserved(s'.accepted, s'.au.history, s'.queue)
  {
    if mv.Act? && s.ses.todo != [] {
      ConservedDoAct(s);
    } else if mv.Draw? && s.au.phase.Busy? && s.au.phase.cur < s.au.phase.limit {
      ConservedDoDraw(c, s);
    } else {
      QueueStays(c, s, mv);
    }
  }

  lemma QueueStays<E>(c: Script<E>, s: Plane<E>, mv: Move)
    requires !(mv.Act? && s.ses.todo != []) && !(mv.Draw? && s.au.phase.Busy? && s.au.phase.cur < s.au.phase.limit)
    ensures var s' := Next(c, s, mv);
            && s'.accepted == s.accepted && s'.au.history == s.au.history && s'.queue == s.queue
            && s'.signals == s.signals && s'.drops == s.drops
  {
  }

  lemma ConservedDoDraw<E>(c: Script<E>, s: Plane<E>)
    requires s.au.phase.Busy? && s.au.phase.cur < s.au.phase.limit && Conserved(s.accepted, s.au.history, s.queue)
    ensures var s' := DoDraw(c, s); Conserved(s'.accepted, s'.au.history, s'.queue)
  {
    ConservedDraw(s.accepted, s.au.history, s.queue, s.au.phase.cur, s.au.phase.cur + 1);
  }

  lemma ConservedDoAct<E>(s: Plane<E>)
    requires s.ses.todo != [] && |s.queue| <= QUEUE_CAP && Conserved(s.accepted, s.au.history, s.queue)
    ensures var s' := DoAct(s); Conserved(s'.accepted, s'.au.history, s'.queue)
  {
    var a := s.ses.todo[0];
    PerformTakes(s, a);
    ConservedAct(s.accepted, s.au.history, s.queue, Taken(s.queue, a));
  }

  lemma {:induction false} AlwaysConserved<E>(c: Script<E>, moves: seq<Move>)
    ensures var s := After(c, moves); Conserved(s.accepted, s.au.history, s.queue)
  {
    if moves != [] {
      var p := moves[..|moves| - 1];
      AlwaysConserved(c, p);
      var _, _ := AlwaysAccount(c, p);
      ConservedNext(c, After(c, p), moves[|moves| - 1]);
    }
  }

  // ---------------- what is lost is counted ----------------

  /** Every event handed over was accepted or counted, and every panic consumed has signalled or will. */
  ghost predicate Balanced<E>(msgs: seq<Msg>, s: Plane<E>)
  {
    && s.ses.m <= |msgs|
    && |Flatten(s.handed)| + Panics(msgs, s.ses.m)
       == |Flatten(s.accepted)| + s.drops + s.signals + SignalsIn(s.ses.todo)
  }

  lemma TakenSize<E>(s: Plane<E>, a: Action)
    requires |s.queue| <= QUEUE_CAP
    ensures var s' := Perform(s, a);
            |Flatten(Handed(a))| + (if a.Signal? then 1 else 0)
            == |Flatten(Taken(s.queue, a))| + (s'.drops - s.drops) + (s'.signals - s.signals)
  {
    match a {
      case Run(evs) =>
        FlattenSingles(evs);
        FlattenSingles(Admitted(QUEUE_CAP - |s.queue|, evs));
      case Batch(evs) => FlattenOne(evs);
      case One(ev) => FlattenOne([ev]);
      case OneUnlessFull(ev) => FlattenOne([ev]);
      case _ =>
    }
  }

  lemma BalancedAct<E>(msgs: seq<Msg>, s: Plane<E>)
    requires s.ses.todo != [] && |s.queue| <= QUEUE_CAP && Balanced(msgs, s)
    ensures Balanced(msgs, DoAct(s))
  {
    var a := s.ses.todo[0];
    TakenSize(s, a);
    PerformTakes(s, a);
    FlattenAppend(s.handed, Handed(a));
    FlattenAppend(s.accepted, Taken(s.queue, a));
  }

  lemma {:induction false} SignalsAppend(a: seq<Action>, b: seq<Action>)
    ensures SignalsIn(a + b) == SignalsIn(a) + SignalsIn(b)
  {
    if a == [] {
      assert a + b == b;
    } else {
      assert (a + b)[1..] == a[1..] + b;
      SignalsAppend(a[1..], b);
    }
  }

  lemma SignalsFlush(stage: seq<Event>)
    ensures SignalsIn(FlushActions(stage)) == 0
  {
    var f := FlushActions(stage);
    if stage != [] {
      assert f[1..][1..] == [];
      assert SignalsIn(f[1..]) == 0;
    }
  }

  lemma SignalsWork(t: Txns, m: Msg)
    ensures SignalsIn(Work(t, m)) == if m.Panic? then 1 else 0
  {
    var w := Work(t, m);
    if m.Panic? {
      assert w[1..][1..] == [];
      assert SignalsIn(w[1..]) == 0;
    } else {
      assert w != [] ==> w[1..] == [];
    }
  }

  lemma SignalsHandle(s: Ses, m: Msg)
    requires s.todo == []
    ensures SignalsIn(Handle(s, m).todo) == if m.Panic? then 1 else 0
  {
    var f, w := FlushActions(s.stage), Work(s.t, m);
    SignalsFlush(s.stage);
    SignalsWork(s.t, m);
    SignalsAppend(f + w, [Count(1)]);
    SignalsAppend(f, w);
    assert [Count(1)][1..] == [];
  }

  lemma BalancedNext<E>(c: Script<E>, s: Plane<E>, mv: Move)
    requires |s.queue| <= QUEUE_CAP && Balanced(c.msgs, s)
    ensures Balanced(c.msgs, Next(c, s, mv))
  {
    match mv {
      case Consume => if s.ses.todo == [] && s.ses.m < |c.msgs| { SignalsHandle(s.ses, c.msgs[s.ses.m]); }
      case FlushRun => if s.ses.todo == [] { SignalsFlush(s.ses.stage); }
      case Act => if s.ses.todo != [] { BalancedAct(c.msgs, s); }
      case _ =>
    }
  }

  lemma {:induction false} AlwaysBalanced<E>(c: Script<E>, moves: seq<Move>)
    ensures Balanced(c.msgs, After(c, moves))
  {
    if moves != [] {
      var p := moves[..|moves| - 1];
      AlwaysBalanced(c, p);
      var _, _ := AlwaysAccount(c, p);
      BalancedNext(c, After(c, p), moves[|moves| - 1]);
    }
  }

  /** At every point of every run: the untagged and the committed events of the consumed messages, and one
      for every panic among them, are as many as the applied, the queued, the ones underway, the dropped
      and the signals raised or due. */
  lemma LossesAreCounted<E>(c: Script<E>, moves: seq<Move>)
    ensures var s := After(c, moves);
            && s.ses.m <= |c.msgs|
            && |OwnEvents(c.msgs, s.ses.m)| + |CommittedEvents(c.msgs, s.ses.m)| + Panics(c.msgs, s.ses.m)
               == |s.au.history| + |s.queue| + |Underway(s.ses)| + s.drops + s.signals + SignalsIn(s.ses.todo)
  {
    var s := After(c, moves);
    AlwaysBalanced(c, moves);
    AlwaysConserved(c, moves);
    HandedAndUnderway(c, moves);
    HandedContents(c.msgs, s.ses.m);
    assert |multiset(EventsOf(s.au.history)) + multiset(s.queue)| == |multiset(Flatten(s.accepted))|;
    assert |multiset(Flatten(SpecBlocks(c.msgs, s.ses.m)))|
        == |multiset(OwnEvents(c.msgs, s.ses.m)) + multiset(CommittedEvents(c.msgs, s.ses.m))|;
  }

  // ---------------- runs that lose nothing ----------------

  lemma AcceptedAct<E>(s: Plane<E>)
    requires s.ses.todo != [] && |s.queue| <= QUEUE_CAP && DoAct(s).drops == 0 && DoAct(s).signals == 0
    ensures s.drops == 0 && s.signals == 0 && (s.accepted == s.handed ==> DoAct(s).accepted == DoAct(s).handed)
  {
    PerformClean(s, s.ses.todo[0]);
  }

  lemma AcceptedNext<E>(c: Script<E>, s: Plane<E>, mv: Move)
    requires |s.queue| <= QUEUE_CAP && Next(c, s, mv).drops == 0 && Next(c, s, mv).signals == 0
    ensures s.drops == 0 && s.signals == 0
    ensures s.accepted == s.handed ==> Next(c, s, mv).accepted == Next(c, s, mv).handed
  {
    if mv.Act? && s.ses.todo != [] {
      AcceptedAct(s);
    }
  }

  lemma {:induction false} AcceptedIsHanded<E>(c: Script<E>, moves: seq<Move>)
    requires After(c, moves).drops == 0 && After(c, moves).signals == 0
    ensures After(c, moves).accepted == After(c, moves).handed
  {
    if moves != [] {
      var p := moves[..|moves| - 1];
      var _, _ := AlwaysAccount(c, p);
      AcceptedNext(c, After(c, p), moves[|moves| - 1]);
      AcceptedIsHanded(c, p);
    }
  }

  /** In every run without drops and signals, the untagged and the committed events of the consumed
      messages are the applied, the queued and the ones underway, each exactly once; once nothing is
      staged or still to do, each is queued or applied. */
  lemma EveryEventOnce<E>(c: Script<E>, moves: seq<Move>)
    requires After(c, moves).drops == 0 && After(c, moves).signals == 0
    ensures var s := After(c, moves);
            && s.ses.m <= |c.msgs|
            && multiset(OwnEvents(c.msgs, s.ses.m)) + multiset(CommittedEvents(c.msgs, s.ses.m))
               == multiset(EventsOf(s.au.history)) + multiset(s.queue) + multiset(Underway(s.ses))
            && (s.ses.stage == [] && s.ses.todo == [] ==> Underway(s.ses) == [])
  {
    AcceptedIsHanded(c, moves);
    AlwaysConserved(c, moves);
    HandedAndUnderway(c, moves);
    HandedContents(c.msgs, After(c, moves).ses.m);
  }

  lemma {:induction false} OwnHas(msgs: seq<Msg>, k: nat, j: nat)
    requires j < k <= |msgs| && HandsOwn(msgs[j])
    ensures msgs[j].ev in OwnEvents(msgs, k)
  {
    if j < k - 1 {
      OwnHas(msgs, k - 1, j);
    }
  }

  lemma OneOfThem(own: seq<Event>, committed: seq<Event>, applied: seq<Event>, queue: seq<Event>, rest: seq<Event>, ev: Event)
    requires multiset(own) + multiset(committed) == multiset(applied) + multiset(queue) + multiset(rest)
    requires ev in own && rest == []
    ensures ev in queue || ev in applied
  {
    assert ev in multiset(own) + multiset(committed);
    assert multiset(rest)[ev] == 0;
    assert ev in multiset(applied) || ev in multiset(queue);
  }

  /** The converse of provenance: the event of an untagged message that was consumed is queued or applied,
      once nothing is staged or still to do. */
  lemma OwnIsVisible<E>(c: Script<E>, moves: seq<Move>, j: nat)
    requires After(c, moves).drops == 0 && After(c, moves).signals == 0
    requires After(c, moves).ses.stage == [] && After(c, moves).ses.todo == []
    requires j < After(c, moves).ses.m && j < |c.msgs| && HandsOwn(c.msgs[j])
    ensures c.msgs[j].ev in After(c, moves).queue || c.msgs[j].ev in EventsOf(After(c, moves).au.history)
  {
    var s := After(c, moves);
    EveryEventOnce(c, moves);
    OwnHas(c.msgs, s.ses.m, j);
    OneOfThem(OwnEvents(c.msgs, s.ses.m), CommittedEvents(c.msgs, s.ses.m), EventsOf(s.au.history), s.queue,
              Underway(s.ses), c.msgs[j].ev);
  }

  /** Every consumed panic raises a signal of its own, once nothing is still to do. */
  lemma PanicsSignal<E>(c: Script<E>, moves: seq<Move>)
    requires After(c, moves).ses.todo == []
    ensures After(c, moves).ses.m <= |c.msgs| && Panics(c.msgs, After(c, moves).ses.m) <= After(c, moves).signals
  {
    AlwaysSignalled(c, moves);
  }

  ghost predicate Signalled<E>(msgs: seq<Msg>, s: Plane<E>)
  {
    s.ses.m <= |msgs| && Panics(msgs, s.ses.m) <= s.signals + SignalsIn(s.ses.todo)
  }

  lemma SignalledAct<E>(msgs: seq<Msg>, s: Plane<E>)
    requires s.ses.todo != [] && Signalled(msgs, s)
    ensures Signalled(msgs, DoAct(s))
  {
  }

  lemma SignalledConsume<E>(msgs: seq<Msg>, s: Plane<E>)
    requires s.ses.todo == [] && s.ses.m < |msgs| && Signalled(msgs, s)
    ensures Signalled(msgs, s.(ses := Handle(s.ses, msgs[s.ses.m])))
  {
    SignalsHandle(s.ses, msgs[s.ses.m]);
  }

  lemma SignalledNext<E>(c: Script<E>, s: Plane<E>, mv: Move)
    requires Signalled(c.msgs, s)
    ensures Signalled(c.msgs, Next(c, s, mv))
  {
    match mv {
      case Consume => if s.ses.todo == [] && s.ses.m < |c.msgs| { SignalledConsume(c.msgs, s); }
      case Act => if s.ses.todo != [] { SignalledAct(c.msgs, s); }
      case _ =>
    }
  }

  lemma {:induction false} AlwaysSignalled<E>(c: Script<E>, moves: seq<Move>)
    ensures Signalled(c.msgs, After(c, moves))
  {
    if moves != [] {
      AlwaysSignalled(c, moves[..|moves| - 1]);
      SignalledNext(c, After(c, moves[..|moves| - 1]), moves[|moves| - 1]);
    }
  }
}
