/** From requests to deliveries: which of the requested objects are accepted, and that a fetch which
    settles has delivered every one of them, in order. */
module Requests {
  import opened Credit
  import opened CreditRuns

  // ---------------- what one request accepts ----------------

  /** The requested hashes the store holds, in request order, every one as often as it was named. */
  ghost function Present(hashes: seq<Hash>, store: Store): seq<Hash>
  {
    if hashes == [] then []
    else
      var r, h := Present(hashes[..|hashes| - 1], store), hashes[|hashes| - 1];
      if h in store then r + [h] else r
  }

  ghost function Upto(s: seq<Hash>, n: nat): seq<Hash>
  {
    if |s| <= n then s else s[..n]
  }

  /** `at` lists positions of `hashes` in ascending order: all those whose object the store holds. */
  ghost predicate HeldPositions(at: seq<nat>, hashes: seq<Hash>, store: Store)
  {
    && (forall i :: 0 <= i < |at| ==> at[i] < |hashes| && hashes[at[i]] in store)
    && (forall i, j :: 0 <= i < j < |at| ==> at[i] < at[j])
    && (forall p :: 0 <= p < |hashes| && hashes[p] in store ==> p in at)
  }

  /** `r` is `hashes` read at the positions `at`. */
  ghost predicate ReadAt(r: seq<Hash>, at: seq<nat>, hashes: seq<Hash>)
  {
    |r| == |at| && forall i :: 0 <= i < |at| ==> at[i] < |hashes| && r[i] == hashes[at[i]]
  }

  /** The present hashes are exactly those at the held positions. */
  lemma {:induction false} PresentPositions(hashes: seq<Hash>, store: Store) returns (at: seq<nat>)
    ensures HeldPositions(at, hashes, store) && ReadAt(Present(hashes, store), at, hashes)
    decreases |hashes|
  {
    if hashes == [] {
      at := [];
    } else {
      var p, last := hashes[..|hashes| - 1], |hashes| - 1;
      at := PresentPositions(p, store);
      assert forall i :: 0 <= i < last ==> hashes[i] == p[i];
      if hashes[last] in store {
        AddPosition(at, p, hashes, store);
        at := at + [last];
      }
    }
  }

  lemma AddPosition(at: seq<nat>, p: seq<Hash>, hashes: seq<Hash>, store: Store)
    requires |hashes| == |p| + 1 && p == hashes[..|p|] && hashes[|p|] in store
    requires HeldPositions(at, p, store) && ReadAt(Present(p, store), at, p)
    ensures HeldPositions(at + [|p|], hashes, store) && ReadAt(Present(hashes, store), at + [|p|], hashes)
  {
    var at' := at + [|p|];
    forall q | 0 <= q < |hashes| && hashes[q] in store ensures q in at' {
      if q == |p| {
        assert at'[|at|] == q;
      } else {
        assert p[q] in store;
        var i :| 0 <= i < |at| && at[i] == q;
        assert at'[i] == q;
      }
    }
  }

  /** Each hash is present as often as it was named, or not at all if the store lacks it. */
  lemma {:induction false} PresentCounts(hashes: seq<Hash>, store: Store, h: Hash)
    ensures multiset(Present(hashes, store))[h] == if h in store then multiset(hashes)[h] else 0
  {
    if hashes != [] {
      var p := hashes[..|hashes| - 1];
      PresentCounts(p, store, h);
      assert hashes == p + [hashes[|hashes| - 1]];
    }
  }

  /** A request takes the present hashes, the first 256 of them. */
  lemma {:induction false} HeldIsPresent(hashes: seq<Hash>, store: Store)
    ensures Held(hashes, store) == Upto(Present(hashes, store), WANT_CAP)
  {
    if hashes != [] {
      HeldIsPresent(hashes[..|hashes| - 1], store);
    }
  }

  ghost function Room(x: Side): nat
  {
    if |x.queue| < SENDQ_CAP then SENDQ_CAP - |x.queue| else 0
  }

  /** Enqueueing appends the longest prefix that fits and counts the rest. */
  lemma {:induction false} EnqueueTakes(x: Side, hashes: seq<Hash>)
    requires |x.queue| <= SENDQ_CAP
    ensures var y, taken := Enqueue(x, hashes), Upto(hashes, Room(x));
            && y.queue == x.queue + taken && y.accepted == x.accepted + taken
            && y.drops == x.drops + |hashes| - |taken|
  {
    if hashes != [] {
      var p, h := hashes[..|hashes| - 1], hashes[|hashes| - 1];
      EnqueueTakes(x, p);
      assert hashes == p + [h];
      if |p| >= Room(x) {
        assert p[..Room(x)] == hashes[..Room(x)];
      }
    }
  }

  // ---------------- every run ----------------

  /** What a move adds to the device's accepted objects. */
  ghost function Asked(mv: Move): seq<Hash>
  {
    if mv.DevWant? then Upto(Present(mv.hashes, mv.store), WANT_CAP) else []
  }

  /** What a move adds to the host's. */
  ghost function Offered(mv: Move): seq<Hash>
  {
    if mv.HostPush? then mv.hashes else []
  }

  ghost function AllAsked(moves: seq<Move>): seq<Hash>
  {
    if moves == [] then [] else AllAsked(moves[..|moves| - 1]) + Asked(moves[|moves| - 1])
  }

  ghost function AllOffered(moves: seq<Move>): seq<Hash>
  {
    if moves == [] then [] else AllOffered(moves[..|moves| - 1]) + Offered(moves[|moves| - 1])
  }

  /** After any run, a request is accepted as far as there is room in the queue: with room for all of it,
      exactly the requested objects the store holds, the first 256 of them. No other move accepts
      anything. */
  lemma MoveAccepts(moves: seq<Move>, mv: Move)
    ensures var s, t := After(moves), Next(After(moves), mv);
            && t.dev.accepted == s.dev.accepted + Upto(Asked(mv), Room(s.dev))
            && t.host.accepted == s.host.accepted + Upto(Offered(mv), Room(s.host))
            && t.dev.drops == s.dev.drops + |Asked(mv)| - |Upto(Asked(mv), Room(s.dev))|
            && t.host.drops == s.host.drops + |Offered(mv)| - |Upto(Offered(mv), Room(s.host))|
  {
    EveryRun(moves);
    StepAccepts(After(moves), mv);
  }

  lemma StepAccepts(s: System, mv: Move)
    requires |s.dev.queue| <= SENDQ_CAP && |s.host.queue| <= SENDQ_CAP
    ensures var t := Next(s, mv);
            && t.dev.accepted == s.dev.accepted + Upto(Asked(mv), Room(s.dev))
            && t.host.accepted == s.host.accepted + Upto(Offered(mv), Room(s.host))
            && t.dev.drops == s.dev.drops + |Asked(mv)| - |Upto(Asked(mv), Room(s.dev))|
            && t.host.drops == s.host.drops + |Offered(mv)| - |Upto(Offered(mv), Room(s.host))|
  {
    match mv {
      case DevWant(hashes, store) =>
        HeldIsPresent(hashes, store);
        EnqueueTakes(s.dev, Held(hashes, store));
      case HostPush(hashes) => EnqueueTakes(s.host, hashes);
      case _ =>
    }
  }

  /** A run whose queues never overflowed has accepted everything asked for and everything offered, in
      order. */
  lemma {:induction false} RunAccepts(moves: seq<Move>)
    ensures var s := After(moves);
            && (s.dev.drops == 0 ==> s.dev.accepted == AllAsked(moves))
            && (s.host.drops == 0 ==> s.host.accepted == AllOffered(moves))
  {
    if moves != [] {
      RunAccepts(moves[..|moves| - 1]);
      MoveAccepts(moves[..|moves| - 1], moves[|moves| - 1]);
    }
  }

  // ---------------- a fetch ----------------

  /** Every lookup of the run sees the same store. */
  ghost predicate SameStore(moves: seq<Move>, store: Store)
  {
    forall i :: 0 <= i < |moves| ==> (moves[i].DevWant? || moves[i].DevRecv?) ==> moves[i].store == store
  }

  /** The packets of these objects. */
  ghost function Objects(hashes: seq<Hash>, store: Store): (r: seq<Packet>)
    requires forall i :: 0 <= i < |hashes| ==> hashes[i] in store
    ensures |r| == |hashes| && forall i :: 0 <= i < |r| ==> r[i] == Obj(hashes[i], store[hashes[i]])
  {
    seq(|hashes|, i requires 0 <= i < |hashes| => Obj(hashes[i], store[hashes[i]]))
  }

  ghost predicate AllIn(hashes: seq<Hash>, store: Store)
  {
    forall i :: 0 <= i < |hashes| ==> hashes[i] in store
  }

  /** Whatever left the queue was sent, with its own length. */
  ghost predicate AllSent(log: seq<Fate>, store: Store)
  {
    forall i :: 0 <= i < |log| ==> log[i].Sent? && log[i].hash in store && log[i].len == store[log[i].hash]
  }

  lemma {:induction false} FlushSends(queue: seq<Hash>, credit: nat, store: Store)
    requires AllIn(queue, store)
    ensures AllSent(Flush(queue, credit, store).fates, store) && AllIn(Flush(queue, credit, store).rest, store)
  {
    if queue != [] && queue[0] in store && store[queue[0]] <= credit {
      FlushSends(queue[1..], credit - store[queue[0]], store);
    }
  }

  /** Each object that leaves the queue is sent if the store holds it, with its length, and is lost if the
      store does not. */
  lemma {:induction false} FlushFates(queue: seq<Hash>, credit: nat, store: Store, i: nat)
    requires i < |Flush(queue, credit, store).fates|
    ensures i < |queue|
    ensures Flush(queue, credit, store).fates[i] == if queue[i] in store then Sent(queue[i], store[queue[i]]) else Lost(queue[i])
    decreases |queue|
  {
    if i > 0 {
      FlushFates(queue[1..], if queue[0] in store then credit - store[queue[0]] else credit, store, i - 1);
    }
  }

  lemma PresentIn(hashes: seq<Hash>, store: Store)
    ensures AllIn(Present(hashes, store), store)
  {
    var at := PresentPositions(hashes, store);
  }

  lemma FetchNext(s: System, mv: Move, store: Store)
    requires |s.dev.queue| <= SENDQ_CAP && ((mv.DevWant? || mv.DevRecv?) ==> mv.store == store)
    requires AllIn(s.dev.queue, store) && AllSent(s.dev.log, store)
    ensures AllIn(Next(s, mv).dev.queue, store) && AllSent(Next(s, mv).dev.log, store)
  {
    match mv {
      case DevWant(hashes, _) =>
        var x := Enqueue(s.dev, Held(hashes, store));
        EnqueueTakes(s.dev, Held(hashes, store));
        HeldIsPresent(hashes, store);
        PresentIn(hashes, store);
        EnqueueKeepsLog(s.dev, Held(hashes, store));
        FlushSends(x.queue, x.credit, store);
      case DevRecv(_) =>
        if s.toDev != [] && s.toDev[0].Grant? {
          FlushSends(s.dev.queue, s.dev.credit + s.toDev[0].amount, store);
        }
      case _ =>
    }
  }

  lemma {:induction false} EnqueueKeepsLog(x: Side, hashes: seq<Hash>)
    ensures Enqueue(x, hashes).log == x.log && Enqueue(x, hashes).credit == x.credit
  {
    if hashes != [] {
      EnqueueKeepsLog(x, hashes[..|hashes| - 1]);
    }
  }

  lemma {:induction false} FetchSends(moves: seq<Move>, store: Store)
    requires SameStore(moves, store)
    ensures AllIn(After(moves).dev.queue, store) && AllSent(After(moves).dev.log, store)
  {
    if moves != [] {
      var p := moves[..|moves| - 1];
      FetchSends(p, store);
      EveryRun(p);
      FetchNext(After(p), moves[|moves| - 1], store);
    }
  }

  lemma {:induction false} SentAll(log: seq<Fate>, store: Store)
    requires AllSent(log, store)
    ensures SentOf(log) == Objects(HashesOf(log), store)
  {
    if log != [] {
      SentAll(log[1..], store);
      assert HashesOf(log) == [log[0].hash] + HashesOf(log[1..]);
    }
  }

  /** A fetch of objects of at most half a window that can go no further and never overflowed the queue
      has delivered, in request order, exactly the requested objects the store holds. */
  lemma FetchDelivers(moves: seq<Move>, store: Store)
    requires (forall i :: 0 <= i < |moves| ==> SmallMove(moves[i])) && Small(store) && SameStore(moves, store)
    requires var s := After(moves); Next(s, DevRecv(store)) == s && Next(s, HostRecv) == s && Next(s, HostSend(store)) == s
    requires After(moves).dev.drops == 0
    ensures AllIn(AllAsked(moves), store) && After(moves).host.got == Objects(AllAsked(moves), store)
  {
    StuckIsDone(moves, store);
    RunAccepts(moves);
    FetchSends(moves, store);
    SentAll(After(moves).dev.log, store);
  }

  // ---------------- a push ----------------

  /** The host offers only objects it has, keeps them, and does not give up. */
  ghost predicate Offers(mv: Move, store: Store)
  {
    && (mv.HostSend? ==> mv.store == store) && (mv.HostPush? ==> AllIn(mv.hashes, store)) && !mv.HostGiveUp?
  }

  lemma PushNext(s: System, mv: Move, store: Store)
    requires |s.host.queue| <= SENDQ_CAP && Offers(mv, store)
    requires AllIn(s.host.queue, store) && AllSent(s.host.log, store)
    ensures AllIn(Next(s, mv).host.queue, store) && AllSent(Next(s, mv).host.log, store)
  {
    if mv.HostPush? {
      EnqueueTakes(s.host, mv.hashes);
      EnqueueKeepsLog(s.host, mv.hashes);
    }
  }

  lemma {:induction false} PushSends(moves: seq<Move>, store: Store)
    requires forall i :: 0 <= i < |moves| ==> Offers(moves[i], store)
    ensures AllIn(After(moves).host.queue, store) && AllSent(After(moves).host.log, store)
  {
    if moves != [] {
      var p := moves[..|moves| - 1];
      PushSends(p, store);
      EveryRun(p);
      PushNext(After(p), moves[|moves| - 1], store);
    }
  }

  /** A push of objects of at most half a window that can go no further and never overflowed the queue
      has delivered exactly the offered objects, in order. */
  lemma PushDelivers(moves: seq<Move>, store: Store)
    requires forall i :: 0 <= i < |moves| ==> SmallMove(moves[i]) && Offers(moves[i], store)
    requires Small(store) && After(moves).host.drops == 0
    requires var s := After(moves); Next(s, DevRecv(store)) == s && Next(s, HostRecv) == s && Next(s, HostSend(store)) == s
    ensures AllIn(AllOffered(moves), store) && After(moves).dev.got == Objects(AllOffered(moves), store)
  {
    StuckIsDone(moves, store);
    RunAccepts(moves);
    PushSends(moves, store);
    SentAll(After(moves).host.log, store);
  }

  // ---------------- a push that fails ----------------

  /** A push whose next object the store lacks, or that gives up, leaves nothing queued: after any run every
      offered object is then accounted for as sent or lost, so that no stale order leaks into a later one. */
  lemma FailureClears(moves: seq<Move>, store: Store)
    ensures var s := After(moves); var t := Next(s, HostGiveUp);
            t.host.queue == [] && HashesOf(t.host.log) == t.host.accepted
            && t.host.accepted == s.host.accepted && SentOf(t.host.log) == SentOf(s.host.log)
    ensures var s := After(moves);
            s.host.queue != [] && s.host.queue[0] !in store ==> Next(s, HostSend(store)) == Next(s, HostGiveUp)
  {
    EveryRun(moves);
    ClearedIs(After(moves).host);
  }

  lemma ClearedIs(x: Side)
    requires HashesOf(x.log) + x.queue == x.accepted
    ensures var y := Cleared(x);
            y.queue == [] && HashesOf(y.log) == x.accepted && y.accepted == x.accepted && SentOf(y.log) == SentOf(x.log)
  {
    assert HashesOf(x.log + Losses(x.queue)) == HashesOf(x.log) + x.queue;
    SentAppend(x.log, Losses(x.queue));
    LossesSendNothing(x.queue);
    assert SentOf(x.log) + [] == SentOf(x.log);
  }
}
