/** Transactions are atomic in every interleaving: what has been applied and what is queued are both
    whole blocks, each accepted block in exactly one of the two, whatever was dropped or late. */
module Atomicity {
  import opened Events
  import opened Segments
  import opened EventQueue
  import opened Session
  import opened EventPlane
  import opened Determinism

  /** All events of the block carry one timestamp. */
  ghost predicate Uniform(b: Block)
  {
    b != [] && forall i :: 0 <= i < |b| ==> b[i].ts == b[0].ts
  }

  ghost predicate AllUniform(bs: seq<Block>)
  {
    forall i :: 0 <= i < |bs| ==> Uniform(bs[i])
  }

  /** Block number `block` was applied, whole, at `pos`. */
  datatype Done = Done(pos: nat, block: nat)

  ghost predicate Within(ids: seq<nat>, n: nat)
  {
    forall i :: 0 <= i < |ids| ==> ids[i] < n
  }

  ghost predicate DoneWithin(done: seq<Done>, n: nat)
  {
    forall i :: 0 <= i < |done| ==> done[i].block < n
  }

  ghost predicate Increasing(ids: seq<nat>)
  {
    forall i, j :: 0 <= i < j < |ids| ==> ids[i] < ids[j]
  }

  /** The events of the named blocks, block after block. */
  ghost function Gather(bs: seq<Block>, ids: seq<nat>): seq<Event>
    requires Within(ids, |bs|)
  {
    if ids == [] then [] else Gather(bs, ids[..|ids| - 1]) + bs[ids[|ids| - 1]]
  }

  /** The application trace of whole blocks, block after block. */
  ghost function Replay(bs: seq<Block>, done: seq<Done>): seq<Applied>
    requires DoneWithin(done, |bs|)
  {
    if done == [] then []
    else
      var d := done[|done| - 1];
      Replay(bs, done[..|done| - 1]) + Stamp(bs[d.block], d.pos)
  }

  ghost function Numbers(done: seq<Done>): (r: seq<nat>)
    ensures |r| == |done|
  {
    seq(|done|, i requires 0 <= i < |done| => done[i].block)
  }

  ghost function Upto(n: nat): (r: seq<nat>)
    ensures |r| == n
  {
    seq(n, i => i)
  }

  // ---------------- a drain takes whole blocks ----------------

  ghost function DueIds(bs: seq<Block>, ids: seq<nat>, limit: nat): seq<nat>
    requires Within(ids, |bs|) && AllUniform(bs)
  {
    if ids == [] then []
    else
      var rest, last := DueIds(bs, ids[..|ids| - 1], limit), ids[|ids| - 1];
      if bs[last][0].ts < limit then rest + [last] else rest
  }

  ghost function LaterIds(bs: seq<Block>, ids: seq<nat>, limit: nat): seq<nat>
    requires Within(ids, |bs|) && AllUniform(bs)
  {
    if ids == [] then []
    else
      var rest, last := LaterIds(bs, ids[..|ids| - 1], limit), ids[|ids| - 1];
      if bs[last][0].ts < limit then rest else rest + [last]
  }

  lemma {:induction false} CutCounts(bs: seq<Block>, ids: seq<nat>, limit: nat)
    requires Within(ids, |bs|) && AllUniform(bs)
    ensures multiset(ids) == multiset(DueIds(bs, ids, limit)) + multiset(LaterIds(bs, ids, limit))
  {
    if ids != [] {
      var p, last := ids[..|ids| - 1], ids[|ids| - 1];
      CutCounts(bs, p, limit);
      assert ids == p + [last];
    }
  }

  lemma {:induction false} CutIncreasing(bs: seq<Block>, ids: seq<nat>, limit: nat, top: nat)
    requires Within(ids, |bs|) && AllUniform(bs) && Increasing(ids) && Within(ids, top)
    ensures Increasing(LaterIds(bs, ids, limit)) && Within(LaterIds(bs, ids, limit), top)
  {
    if ids != [] {
      var last := ids[|ids| - 1];
      assert Within(ids[..|ids| - 1], last);
      CutIncreasing(bs, ids[..|ids| - 1], limit, last);
    }
  }

  lemma {:induction false} UniformCut(b: Block, ts: nat, limit: nat)
    requires forall i :: 0 <= i < |b| ==> b[i].ts == ts
    ensures Before(b, limit) == if ts < limit then b else []
    ensures From(b, limit) == if ts < limit then [] else b
  {
    if b != [] {
      UniformCut(b[..|b| - 1], ts, limit);
      assert b == b[..|b| - 1] + [b[|b| - 1]];
    }
  }

  lemma GatherOneMore(bs: seq<Block>, ids: seq<nat>, id: nat)
    requires Within(ids, |bs|) && id < |bs|
    ensures Within(ids + [id], |bs|) && Gather(bs, ids + [id]) == Gather(bs, ids) + bs[id]
  {
    assert (ids + [id])[..|ids|] == ids;
  }

  /** A uniform block at the end of the queue goes to one side whole. */
  lemma CutBlock(q: seq<Event>, b: Block, limit: nat)
    requires Uniform(b)
    ensures Before(q + b, limit) == if b[0].ts < limit then Before(q, limit) + b else Before(q, limit)
    ensures From(q + b, limit) == if b[0].ts < limit then From(q, limit) else From(q, limit) + b
  {
    SplitAppend(q, b, limit);
    UniformCut(b, b[0].ts, limit);
    assert Before(q, limit) + [] == Before(q, limit) && From(q, limit) + [] == From(q, limit);
  }

  lemma {:induction false} GatherCut(bs: seq<Block>, ids: seq<nat>, limit: nat)
    requires Within(ids, |bs|) && AllUniform(bs)
    ensures Within(DueIds(bs, ids, limit), |bs|) && Within(LaterIds(bs, ids, limit), |bs|)
    ensures Before(Gather(bs, ids), limit) == Gather(bs, DueIds(bs, ids, limit))
    ensures From(Gather(bs, ids), limit) == Gather(bs, LaterIds(bs, ids, limit))
  {
    if ids != [] {
      var p, last := ids[..|ids| - 1], ids[|ids| - 1];
      GatherCut(bs, p, limit);
      GatherOneMore(bs, DueIds(bs, p, limit), last);
      GatherOneMore(bs, LaterIds(bs, p, limit), last);
      CutBlock(Gather(bs, p), bs[last], limit);
    }
  }

  ghost function Tag(ids: seq<nat>, pos: nat): (r: seq<Done>)
    ensures |r| == |ids|
  {
    seq(|ids|, i requires 0 <= i < |ids| => Done(pos, ids[i]))
  }

  lemma {:induction false} ReplayTag(bs: seq<Block>, ids: seq<nat>, pos: nat)
    requires Within(ids, |bs|)
    ensures Replay(bs, Tag(ids, pos)) == Stamp(Gather(bs, ids), pos)
  {
    if ids != [] {
      var p, last := ids[..|ids| - 1], ids[|ids| - 1];
      ReplayTag(bs, p, pos);
      assert Tag(ids, pos)[..|ids| - 1] == Tag(p, pos);
      assert Stamp(Gather(bs, p) + bs[last], pos) == Stamp(Gather(bs, p), pos) + Stamp(bs[last], pos);
    }
  }

  lemma {:induction false} ReplayAppend(bs: seq<Block>, a: seq<Done>, b: seq<Done>)
    requires DoneWithin(a, |bs|) && DoneWithin(b, |bs|)
    ensures DoneWithin(a + b, |bs|) && Replay(bs, a + b) == Replay(bs, a) + Replay(bs, b)
  {
    if b == [] {
      assert a + b == a;
      assert Replay(bs, a) + [] == Replay(bs, a);
    } else {
      var p, d := b[..|b| - 1], b[|b| - 1];
      ReplayAppend(bs, a, p);
      assert (a + b)[..|a + b| - 1] == a + p;
      var x, u, w := Replay(bs, a), Replay(bs, p), Stamp(bs[d.block], d.pos);
      assert x + (u + w) == (x + u) + w;
    }
  }

  // ---------------- the account of a state ----------------

  /** Each of the first `n` numbers is in exactly one of the two lists, once. */
  ghost predicate Partition(gone: seq<nat>, waiting: seq<nat>, n: nat)
  {
    multiset(gone) + multiset(waiting) == multiset(Upto(n))
  }

  lemma PartitionMove(gone: seq<nat>, waiting: seq<nat>, n: nat, due: seq<nat>, later: seq<nat>)
    requires Partition(gone, waiting, n) && multiset(waiting) == multiset(due) + multiset(later)
    ensures Partition(gone + due, later, n)
  {
  }

  lemma PartitionGrow(gone: seq<nat>, waiting: seq<nat>, n: nat)
    requires Partition(gone, waiting, n)
    ensures Partition(gone, waiting + [n], n + 1)
  {
    assert Upto(n + 1) == Upto(n) + [n];
  }

  /** The applied events are the blocks `done`, the queued ones the blocks `waiting` in order. */
  ghost predicate Explains(bs: seq<Block>, history: seq<Applied>, queue: seq<Event>, done: seq<Done>,
        waiting: seq<nat>)
  {
    && DoneWithin(done, |bs|) && history == Replay(bs, done)
    && Within(waiting, |bs|) && queue == Gather(bs, waiting) && Increasing(waiting)
  }

  /** `done` and `waiting` account for everything applied, everything queued and everything accepted. */
  ghost predicate Account(bs: seq<Block>, history: seq<Applied>, queue: seq<Event>, done: seq<Done>,
        waiting: seq<nat>)
  {
    Explains(bs, history, queue, done, waiting) && Partition(Numbers(done), waiting, |bs|)
  }

  lemma ExplainsDrain(bs: seq<Block>, history: seq<Applied>, queue: seq<Event>, done: seq<Done>,
        waiting: seq<nat>, pos: nat, next: nat)
    requires AllUniform(bs) && Explains(bs, history, queue, done, waiting)
    ensures Explains(bs, history + Stamp(Before(queue, next), pos), From(queue, next),
              done + Tag(DueIds(bs, waiting, next), pos), LaterIds(bs, waiting, next))
  {
    var due := DueIds(bs, waiting, next);
    GatherCut(bs, waiting, next);
    ReplayTag(bs, due, pos);
    ReplayAppend(bs, done, Tag(due, pos));
    CutIncreasing(bs, waiting, next, |bs|);
  }

  lemma PartitionDrain(bs: seq<Block>, done: seq<Done>, waiting: seq<nat>, pos: nat, next: nat)
    requires Within(waiting, |bs|) && AllUniform(bs) && Partition(Numbers(done), waiting, |bs|)
    ensures Partition(Numbers(done + Tag(DueIds(bs, waiting, next), pos)), LaterIds(bs, waiting, next), |bs|)
  {
    var due := DueIds(bs, waiting, next);
    CutCounts(bs, waiting, next);
    PartitionMove(Numbers(done), waiting, |bs|, due, LaterIds(bs, waiting, next));
    assert Numbers(done + Tag(due, pos)) == Numbers(done) + due;
  }

  lemma AccountDrain(bs: seq<Block>, history: seq<Applied>, queue: seq<Event>, done: seq<Done>,
        waiting: seq<nat>, pos: nat)
    returns (done': seq<Done>, waiting': seq<nat>)
    requires AllUniform(bs) && Account(bs, history, queue, done, waiting)
    ensures Account(bs, history + Stamp(Before(queue, pos + 1), pos), From(queue, pos + 1), done', waiting')
  {
    var next := pos + 1;
    ExplainsDrain(bs, history, queue, done, waiting, pos, next);
    PartitionDrain(bs, done, waiting, pos, next);
    done', waiting' := done + Tag(DueIds(bs, waiting, next), pos), LaterIds(bs, waiting, next);
  }

  lemma {:induction false} GatherMore(bs: seq<Block>, more: seq<Block>, ids: seq<nat>)
    requires Within(ids, |bs|)
    ensures Gather(bs + more, ids) == Gather(bs, ids)
  {
    if ids != [] {
      GatherMore(bs, more, ids[..|ids| - 1]);
    }
  }

  lemma {:induction false} ReplayMore(bs: seq<Block>, more: seq<Block>, done: seq<Done>)
    requires DoneWithin(done, |bs|)
    ensures Replay(bs + more, done) == Replay(bs, done)
  {
    if done != [] {
      ReplayMore(bs, more, done[..|done| - 1]);
    }
  }

  lemma GatherNext(bs: seq<Block>, ids: seq<nat>, n: nat)
    requires Within(ids, n) && n < |bs| && Increasing(ids)
    ensures Within(ids + [n], |bs|) && Increasing(ids + [n]) && Gather(bs, ids + [n]) == Gather(bs, ids) + bs[n]
  {
    assert (ids + [n])[..|ids|] == ids;
  }

  lemma ExplainsOne(bs: seq<Block>, bs': seq<Block>, history: seq<Applied>, queue: seq<Event>, done: seq<Done>,
        waiting: seq<nat>, b: Block)
    requires Explains(bs, history, queue, done, waiting) && bs' == bs + [b]
    ensures Explains(bs', history, queue + b, done, waiting + [|bs|])
  {
    GatherMore(bs, [b], waiting);
    ReplayMore(bs, [b], done);
    GatherNext(bs', waiting, |bs|);
  }

  lemma AccountOne(bs: seq<Block>, bs': seq<Block>, history: seq<Applied>, queue: seq<Event>, done: seq<Done>,
        waiting: seq<nat>, b: Block)
    returns (waiting': seq<nat>)
    requires Account(bs, history, queue, done, waiting) && bs' == bs + [b]
    ensures Account(bs', history, queue + b, done, waiting')
  {
    waiting' := waiting + [|bs|];
    ExplainsOne(bs, bs', history, queue, done, waiting, b);
    PartitionGrow(Numbers(done), waiting, |bs|);
  }

  lemma {:induction false} AccountPush(bs: seq<Block>, history: seq<Applied>, queue: seq<Event>, done: seq<Done>,
        waiting: seq<nat>, more: seq<Block>)
    returns (waiting': seq<nat>)
    requires Account(bs, history, queue, done, waiting)
    ensures Account(bs + more, history, queue + Flatten(more), done, waiting')
    decreases |more|
  {
    if more == [] {
      waiting' := waiting;
      assert bs + more == bs && queue + Flatten(more) == queue;
    } else {
      var p, last := more[..|more| - 1], more[|more| - 1];
      waiting' := AccountPush(bs, history, queue, done, waiting, p);
      assert bs + more == bs + p + [last];
      waiting' := AccountOne(bs + p, bs + more, history, queue + Flatten(p), done, waiting', last);
      assert queue + Flatten(p) + last == queue + (Flatten(p) + last);
    }
  }

  // ---------------- every schedule ----------------

  /** `small` is obtained from `big` by leaving blocks out. */
  ghost predicate Subsequence(small: seq<Block>, big: seq<Block>)
    decreases |big|
  {
    if small == [] then true
    else if big == [] then false
    else
      var p := big[..|big| - 1];
      || Subsequence(small, p)
      || (small[|small| - 1] == big[|big| - 1] && Subsequence(small[..|small| - 1], p))
  }

  ghost predicate TodoUniform(todo: seq<Action>)
  {
    forall i :: 0 <= i < |todo| ==> AllUniform(Handed(todo[i]))
  }

  lemma SinglesUniform(evs: seq<Event>)
    ensures AllUniform(Singles(evs))
  {
  }

  lemma FlushUniform(stage: seq<Event>)
    ensures TodoUniform(FlushActions(stage))
  {
    SinglesUniform(stage);
  }

  lemma WorkUniform(t: Txns, m: Msg)
    ensures TodoUniform(Work(t, m))
  {
  }

  lemma HandleUniform(s: Ses, m: Msg)
    requires s.todo == []
    ensures TodoUniform(Handle(s, m).todo)
  {
    FlushUniform(s.stage);
    WorkUniform(s.t, m);
  }

  lemma {:induction false} SubsequenceSkip(small: seq<Block>, big: seq<Block>, more: seq<Block>)
    requires Subsequence(small, big)
    ensures Subsequence(small, big + more)
    decreases |more|
  {
    if more == [] {
      assert big + more == big;
    } else {
      SubsequenceSkip(small, big, more[..|more| - 1]);
      assert (big + more)[..|big + more| - 1] == big + more[..|more| - 1];
    }
  }

  lemma SubsequenceOneMore(small: seq<Block>, big: seq<Block>, b: Block)
    requires Subsequence(small, big)
    ensures Subsequence(small + [b], big + [b])
  {
    assert (big + [b])[..|big + [b]| - 1] == big && (small + [b])[..|small + [b]| - 1] == small;
  }

  lemma {:induction false} SubsequenceBoth(small: seq<Block>, big: seq<Block>, more: seq<Block>)
    requires Subsequence(small, big)
    ensures Subsequence(small + more, big + more)
    decreases |more|
  {
    if more == [] {
      assert small + more == small && big + more == big;
    } else {
      var p, last := more[..|more| - 1], more[|more| - 1];
      SubsequenceBoth(small, big, p);
      SubsequenceOneMore(small + p, big + p, last);
      assert small + more == (small + p) + [last] && big + more == (big + p) + [last];
    }
  }

  /** The blocks the queue had room for. */
  ghost function Taken(queue: seq<Event>, a: Action): seq<Block>
  {
    match a
    case Run(evs) => if |queue| < QUEUE_CAP then Singles(Admitted(QUEUE_CAP - |queue|, evs)) else []
    case Batch(evs) => if |queue| + |evs| <= QUEUE_CAP then [evs] else []
    case One(ev) => if |queue| < QUEUE_CAP then [[ev]] else []
    case OneUnlessFull(ev) => if |queue| < QUEUE_CAP then [[ev]] else []
    case _ => []
  }

  lemma TakenOf(queue: seq<Event>, a: Action, big: seq<Block>, small: seq<Block>)
    requires AllUniform(Handed(a)) && Subsequence(small, big)
    ensures AllUniform(Taken(queue, a)) && Subsequence(small + Taken(queue, a), big + Handed(a))
  {
    var t, h := Taken(queue, a), Handed(a);
    if t == h {
      SubsequenceBoth(small, big, h);
    } else if t == [] {
      SubsequenceSkip(small, big, h);
      assert small + t == small;
    } else {
      var k := |t|;
      assert h == t + h[k..];
      SubsequenceBoth(small, big, t);
      SubsequenceSkip(small + t, big + t, h[k..]);
      assert big + t + h[k..] == big + h;
    }
  }

  lemma PerformTakes<E>(s: Plane<E>, a: Action)
    requires |s.queue| <= QUEUE_CAP
    ensures var s' := Perform(s, a);
            && s'.queue == s.queue + Flatten(Taken(s.queue, a)) && |s'.queue| <= QUEUE_CAP
            && s'.accepted == s.accepted + Taken(s.queue, a) && s'.au == s.au
  {
    match a {
      case Run(evs) =>
        PushEachKeepsPrefix(s.queue, evs);
        FlattenSingles(Admitted(QUEUE_CAP - |s.queue|, evs));
      case Batch(evs) => FlattenOne(evs);
      case One(ev) => FlattenOne([ev]);
      case OneUnlessFull(ev) => FlattenOne([ev]);
      case _ =>
    }
  }

  ghost predicate Ready<E>(s: Plane<E>)
  {
    |s.queue| <= QUEUE_CAP && AllUniform(s.accepted) && TodoUniform(s.ses.todo) && Subsequence(s.accepted, s.handed)
  }

  lemma ActAccount<E>(s: Plane<E>, done: seq<Done>, waiting: seq<nat>) returns (waiting': seq<nat>)
    requires s.ses.todo != [] && Ready(s) && Account(s.accepted, s.au.history, s.queue, done, waiting)
    ensures Ready(DoAct(s)) && Account(DoAct(s).accepted, DoAct(s).au.history, DoAct(s).queue, done, waiting')
  {
    var a := s.ses.todo[0];
    PerformTakes(s, a);
    TakenOf(s.queue, a, s.handed, s.accepted);
    waiting' := AccountPush(s.accepted, s.au.history, s.queue, done, waiting, Taken(s.queue, a));
  }

  lemma DrawAccount<E>(c: Script<E>, s: Plane<E>, done: seq<Done>, waiting: seq<nat>)
    returns (done': seq<Done>, waiting': seq<nat>)
    requires s.au.phase.Busy? && s.au.phase.cur < s.au.phase.limit
    requires Ready(s) && Account(s.accepted, s.au.history, s.queue, done, waiting)
    ensures Ready(DoDraw(c, s)) && Account(s.accepted, DoDraw(c, s).au.history, DoDraw(c, s).queue, done', waiting')
  {
    DrawMoves(c, s);
    FromShrinks(s.queue, s.au.phase.cur + 1);
    done', waiting' := AccountDrain(s.accepted, s.au.history, s.queue, done, waiting, s.au.phase.cur);
  }

  /** What a drawn segment moves: the due events, from the queue to the history. */
  lemma DrawMoves<E>(c: Script<E>, s: Plane<E>)
    requires s.au.phase.Busy? && s.au.phase.cur < s.au.phase.limit
    ensures var s', cur := DoDraw(c, s), s.au.phase.cur;
            && s'.queue == From(s.queue, cur + 1) && s'.accepted == s.accepted && s'.handed == s.handed && s'.ses == s.ses
            && s'.au.history == s.au.history + Stamp(Before(s.queue, cur + 1), cur)
  {
  }

  lemma NextAccount<E>(c: Script<E>, s: Plane<E>, mv: Move, done: seq<Done>, waiting: seq<nat>)
    returns (done': seq<Done>, waiting': seq<nat>)
    requires Ready(s) && Account(s.accepted, s.au.history, s.queue, done, waiting)
    ensures var s' := Next(c, s, mv); Ready(s') && Account(s'.accepted, s'.au.history, s'.queue, done', waiting')
  {
    done', waiting' := done, waiting;
    match mv {
      case Consume => if s.ses.todo == [] && s.ses.m < |c.msgs| { HandleUniform(s.ses, c.msgs[s.ses.m]); }
      case FlushRun => if s.ses.todo == [] { FlushUniform(s.ses.stage); }
      case Act => if s.ses.todo != [] { waiting' := ActAccount(s, done, waiting); }
      case Draw =>
        if s.au.phase.Busy? && s.au.phase.cur < s.au.phase.limit {
          done', waiting' := DrawAccount(c, s, done, waiting);
        }
      case _ =>
    }
  }

  lemma {:induction false} AlwaysAccount<E>(c: Script<E>, moves: seq<Move>) returns (done: seq<Done>,
        waiting: seq<nat>)
    ensures var s := After(c, moves); Ready(s) && Account(s.accepted, s.au.history, s.queue, done, waiting)
    decreases |moves|
  {
    if moves == [] {
      done, waiting := [], [];
    } else {
      done, waiting := AlwaysAccount(c, moves[..|moves| - 1]);
      done, waiting := NextAccount(c, After(c, moves[..|moves| - 1]), moves[|moves| - 1], done, waiting);
    }
  }

  /** At every point of every interleaving the applied events are a run of whole accepted blocks, the
      queued events another in acceptance order, and each accepted block is in exactly one of the
      two. The accepted blocks are some of those the consumed messages hand over, in order. */
  lemma BlocksAreAtomic<E>(c: Script<E>, moves: seq<Move>) returns (done: seq<Done>, waiting: seq<nat>)
    ensures var s := After(c, moves);
            && Account(s.accepted, s.au.history, s.queue, done, waiting)
            && Subsequence(s.accepted, s.handed)
            && s.ses.m <= |c.msgs| && s.handed <= SpecBlocks(c.msgs, s.ses.m)
  {
    done, waiting := AlwaysAccount(c, moves);
    CountedIsHanded(c, moves);
  }

  /** `part` stands in `whole` without interruption, from index `at`. */
  ghost predicate StandsAt<T(!new)>(part: seq<T>, whole: seq<T>, at: nat)
  {
    at + |part| <= |whole| && whole[at..at + |part|] == part
  }

  lemma {:induction false} ReplayHas(bs: seq<Block>, done: seq<Done>, i: nat) returns (at: nat)
    requires DoneWithin(done, |bs|) && i < |done|
    ensures StandsAt(Stamp(bs[done[i].block], done[i].pos), Replay(bs, done), at)
    decreases |done|
  {
    if i == |done| - 1 {
      at := |Replay(bs, done[..i])|;
    } else {
      at := ReplayHas(bs, done[..|done| - 1], i);
    }
  }

  lemma {:induction false} GatherHas(bs: seq<Block>, ids: seq<nat>, i: nat) returns (at: nat)
    requires Within(ids, |bs|) && i < |ids|
    ensures StandsAt(bs[ids[i]], Gather(bs, ids), at)
    decreases |ids|
  {
    if i == |ids| - 1 {
      at := |Gather(bs, ids[..i])|;
    } else {
      at := GatherHas(bs, ids[..|ids| - 1], i);
    }
  }

  /** All or nothing: an accepted block stands either uninterrupted in the applied trace, all at one
      position, or uninterrupted in the queue. */
  lemma AllOrNothing<E>(c: Script<E>, moves: seq<Move>, i: nat) returns (applied: bool, pos: nat, at: nat)
    requires i < |After(c, moves).accepted|
    ensures var s := After(c, moves);
            if applied then StandsAt(Stamp(s.accepted[i], pos), s.au.history, at) else StandsAt(s.accepted[i], s.queue, at)
  {
    var s := After(c, moves);
    var done, waiting := AlwaysAccount(c, moves);
    assert Upto(|s.accepted|)[i] == i;
    assert i in multiset(Upto(|s.accepted|));
    pos := 0;
    if i in waiting {
      applied := false;
      var k :| 0 <= k < |waiting| && waiting[k] == i;
      at := GatherHas(s.accepted, waiting, k);
    } else {
      applied := true;
      assert i in Numbers(done);
      var k :| 0 <= k < |done| && done[k].block == i;
      pos := done[k].pos;
      at := ReplayHas(s.accepted, done, k);
    }
  }
}
