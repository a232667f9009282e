/** What every run of the credit protocol keeps: conservation of credit in both directions, in-order
    delivery, a bounded window, and progress for objects of at most half a window. */
module CreditRuns {
  import opened Credit

  // ---------------- sums over channels ----------------

  lemma {:induction false} SumsAppend(a: seq<Packet>, b: seq<Packet>)
    ensures BytesOf(a + b) == BytesOf(a) + BytesOf(b)
    ensures GrantsOf(a + b) == GrantsOf(a) + GrantsOf(b)
  {
    if a == [] {
      assert a + b == b;
    } else {
      assert (a + b)[1..] == a[1..] + b && (a + b)[0] == a[0];
      SumsAppend(a[1..], b);
    }
  }

  lemma {:induction false} ObjsAppend(a: seq<Packet>, b: seq<Packet>)
    ensures ObjsOf(a + b) == ObjsOf(a) + ObjsOf(b)
  {
    if a == [] {
      assert a + b == b;
    } else {
      assert (a + b)[1..] == a[1..] + b && (a + b)[0] == a[0];
      ObjsAppend(a[1..], b);
      var x, u, w := [a[0]], ObjsOf(a[1..]), ObjsOf(b);
      assert x + (u + w) == (x + u) + w;
    }
  }

  lemma ChannelAppend(a: seq<Packet>, b: seq<Packet>)
    ensures BytesOf(a + b) == BytesOf(a) + BytesOf(b)
    ensures GrantsOf(a + b) == GrantsOf(a) + GrantsOf(b)
    ensures ObjsOf(a + b) == ObjsOf(a) + ObjsOf(b)
  {
    SumsAppend(a, b);
    ObjsAppend(a, b);
  }

  lemma {:induction false} SentAppend(a: seq<Fate>, b: seq<Fate>)
    ensures SentOf(a + b) == SentOf(a) + SentOf(b)
  {
    if a == [] {
      assert a + b == b;
    } else {
      assert (a + b)[1..] == a[1..] + b;
      SentAppend(a[1..], b);
    }
  }

  lemma {:induction false} SentAreObjs(log: seq<Fate>)
    ensures GrantsOf(SentOf(log)) == 0 && ObjsOf(SentOf(log)) == SentOf(log)
  {
    if log != [] {
      SentAreObjs(log[1..]);
      if log[0].Sent? {
        assert SentOf(log)[1..] == SentOf(log[1..]);
      }
    }
  }

  lemma {:induction false} LossesSendNothing(queue: seq<Hash>)
    ensures SentOf(Losses(queue)) == [] && HashesOf(Losses(queue)) == queue
  {
    if queue != [] {
      LossesSendNothing(queue[1..]);
      assert Losses(queue)[1..] == Losses(queue[1..]);
    }
  }

  // ---------------- one direction ----------------

  /** The granter's window is the sender's credit plus what is in flight either way. */
  ghost predicate Conserved(granter: Side, sender: Side, down: seq<Packet>, up: seq<Packet>)
  {
    granter.granted == sender.credit + GrantsOf(down) + BytesOf(up)
  }

  /** What was accepted is, in order, what left the queue and what is still in it; what was sent is,
      in order, what arrived and what is still in flight. */
  ghost predicate InOrder(granter: Side, sender: Side, up: seq<Packet>)
  {
    && HashesOf(sender.log) + sender.queue == sender.accepted
    && granter.got + ObjsOf(up) == SentOf(sender.log)
  }

  ghost predicate Bounded(x: Side)
  {
    WINDOW / 2 <= x.granted < WINDOW + WINDOW / 2 && |x.queue| <= SENDQ_CAP
  }

  ghost predicate Way(granter: Side, sender: Side, down: seq<Packet>, up: seq<Packet>)
  {
    Conserved(granter, sender, down, up) && InOrder(granter, sender, up)
  }

  ghost predicate Inv(s: System)
  {
    && Way(s.host, s.dev, s.toDev, s.toHost) && Way(s.dev, s.host, s.toHost, s.toDev)
    && Bounded(s.dev) && Bounded(s.host) && s.clamps == 0
  }

  /** The parts of a side that its role as a granter uses are unchanged. */
  ghost predicate SameGranter(x: Side, y: Side)
  {
    x.granted == y.granted && x.got == y.got
  }

  ghost predicate SameSender(x: Side, y: Side)
  {
    x.credit == y.credit && x.queue == y.queue && x.accepted == y.accepted && x.log == y.log
  }

  /** The sender puts objects on the channel. */
  lemma WaySends(g: Side, x: Side, down: seq<Packet>, up: seq<Packet>, x': Side, fates: seq<Fate>)
    requires Way(g, x, down, up)
    requires x'.credit + BytesOf(SentOf(fates)) == x.credit && HashesOf(fates) + x'.queue == x.queue
    requires x'.log == x.log + fates && x'.accepted == x.accepted
    ensures Way(g, x', down, up + SentOf(fates))
  {
    ChannelAppend(up, SentOf(fates));
    SentAreObjs(fates);
    SentAppend(x.log, fates);
    InOrderSends(g.got, ObjsOf(up), SentOf(x.log), SentOf(fates));
    QueueMoves(x.log, fates, x.queue, x'.queue);
  }

  lemma InOrderSends(got: seq<Packet>, inFlight: seq<Packet>, sent: seq<Packet>, more: seq<Packet>)
    requires got + inFlight == sent
    ensures got + (inFlight + more) == sent + more
  {
  }

  lemma QueueMoves(log: seq<Fate>, fates: seq<Fate>, queue: seq<Hash>, queue': seq<Hash>)
    requires HashesOf(fates) + queue' == queue
    ensures HashesOf(log + fates) + queue' == HashesOf(log) + queue
  {
    assert HashesOf(log + fates) == HashesOf(log) + HashesOf(fates);
  }

  /** The channels carry, besides, packets of the other direction. */
  lemma WayBystander(g: Side, x: Side, down: seq<Packet>, up: seq<Packet>, g': Side, x': Side,
        down': seq<Packet>, up': seq<Packet>)
    requires Way(g, x, down, up) && SameGranter(g, g') && SameSender(x, x')
    requires GrantsOf(down') == GrantsOf(down) && BytesOf(up') == BytesOf(up) && ObjsOf(up') == ObjsOf(up)
    ensures Way(g', x', down', up')
  {
  }

  /** A grant arrives at the sender. */
  lemma WayGranted(g: Side, x: Side, down: seq<Packet>, up: seq<Packet>)
    requires Way(g, x, down, up) && down != [] && down[0].Grant?
    ensures Way(g, x.(credit := x.credit + down[0].amount), down[1..], up)
  {
  }

  /** An object arrives at the granter, which grants again when its window has halved. */
  lemma WayConsumed(g: Side, x: Side, down: seq<Packet>, up: seq<Packet>)
    requires Way(g, x, down, up) && Bounded(g) && up != [] && up[0].Obj?
    ensures g.granted >= up[0].len
    ensures var (g', reply) := Consume(g, up[0]);
            && Way(g', x, down + reply, up[1..]) && Bounded(g')
            && SameSender(g, g') && BytesOf(reply) == 0 && ObjsOf(reply) == []
  {
    var (g', reply) := Consume(g, up[0]);
    ChannelAppend(down, reply);
    assert g.got + ([up[0]] + ObjsOf(up[1..])) == g.got + [up[0]] + ObjsOf(up[1..]);
  }

  // ---------------- every move ----------------

  lemma {:induction false} EnqueueKeeps(x: Side, hashes: seq<Hash>)
    requires HashesOf(x.log) + x.queue == x.accepted && |x.queue| <= SENDQ_CAP
    ensures var y := Enqueue(x, hashes);
            && HashesOf(y.log) + y.queue == y.accepted && |y.queue| <= SENDQ_CAP
            && y.log == x.log && y.credit == x.credit && SameGranter(x, y)
            && y.drops + |y.accepted| == x.drops + |x.accepted| + |hashes|
  {
    if hashes != [] {
      EnqueueKeeps(x, hashes[..|hashes| - 1]);
      var y, h := Enqueue(x, hashes[..|hashes| - 1]), hashes[|hashes| - 1];
      assert HashesOf(y.log) + (y.queue + [h]) == HashesOf(y.log) + y.queue + [h];
    }
  }

  /** A flush takes a prefix of the queue, pays for what it sends, and stops only at a head that the
      remaining credit does not cover. */
  lemma FlushKeeps(queue: seq<Hash>, credit: nat, store: Store)
    ensures var r := Flush(queue, credit, store);
            && HashesOf(r.fates) + r.rest == queue
            && r.credit + BytesOf(SentOf(r.fates)) == credit
            && (r.rest != [] ==> r.rest[0] in store && store[r.rest[0]] > r.credit)
  {
    FlushTakesPrefix(queue, credit, store);
    FlushPays(queue, credit, store);
  }

  lemma {:induction false} FlushTakesPrefix(queue: seq<Hash>, credit: nat, store: Store)
    ensures var r := Flush(queue, credit, store); HashesOf(r.fates) + r.rest == queue
  {
    if queue == [] || (queue[0] in store && store[queue[0]] > credit) {
      assert HashesOf([]) + queue == queue;
    } else {
      var h, lost := queue[0], queue[0] !in store;
      var credit' := if lost then credit else credit - store[h];
      FlushTakesPrefix(queue[1..], credit', store);
      var r := Flush(queue[1..], credit', store);
      FateFront(if lost then Lost(h) else Sent(h, store[h]), r.fates);
      assert [h] + (HashesOf(r.fates) + r.rest) == ([h] + HashesOf(r.fates)) + r.rest;
      assert [h] + queue[1..] == queue;
    }
  }

  lemma {:induction false} FlushPays(queue: seq<Hash>, credit: nat, store: Store)
    ensures var r := Flush(queue, credit, store);
            && r.credit + BytesOf(SentOf(r.fates)) == credit
            && (r.rest != [] ==> r.rest[0] in store && store[r.rest[0]] > r.credit)
  {
    if queue != [] {
      var h := queue[0];
      if h !in store {
        FlushPays(queue[1..], credit, store);
        FateFront(Lost(h), Flush(queue[1..], credit, store).fates);
      } else if store[h] <= credit {
        FlushPays(queue[1..], credit - store[h], store);
        FateFront(Sent(h, store[h]), Flush(queue[1..], credit - store[h], store).fates);
      }
    }
  }

  lemma FateFront(fate: Fate, fates: seq<Fate>)
    ensures HashesOf([fate] + fates) == [fate.hash] + HashesOf(fates)
    ensures BytesOf(SentOf([fate] + fates)) == (if fate.Sent? then fate.len else 0) + BytesOf(SentOf(fates))
  {
    assert ([fate] + fates)[1..] == fates;
    if fate.Sent? {
      assert SentOf([fate] + fates)[1..] == SentOf(fates);
    }
  }

  /** The device's flush sends only; the window it grants and what it received stay. */
  lemma DevFlushInv(s: System, store: Store)
    requires Inv(s)
    ensures Inv(DevFlush(s, store))
  {
    var f := Flush(s.dev.queue, s.dev.credit, store);
    FlushKeeps(s.dev.queue, s.dev.credit, store);
    var x, out := AfterFlush(s.dev, f), SentOf(f.fates);
    WaySends(s.host, s.dev, s.toDev, s.toHost, x, f.fates);
    ChannelAppend(s.toHost, out);
    SentAreObjs(f.fates);
    WayBystander(s.dev, s.host, s.toHost, s.toDev, x, s.host, s.toHost + out, s.toDev);
  }

  lemma EnqueueInv(s: System, hashes: seq<Hash>)
    requires Inv(s)
    ensures Inv(s.(dev := Enqueue(s.dev, hashes))) && Inv(s.(host := Enqueue(s.host, hashes)))
  {
    EnqueueKeeps(s.dev, hashes);
    EnqueueKeeps(s.host, hashes);
  }

  lemma ClearedInv(s: System)
    requires Inv(s)
    ensures Inv(s.(host := Cleared(s.host)))
  {
    LossesSendNothing(s.host.queue);
    WaySends(s.dev, s.host, s.toHost, s.toDev, Cleared(s.host), Losses(s.host.queue));
    assert s.toDev + [] == s.toDev;
  }

  lemma HostSendsInv(s: System, store: Store)
    requires Inv(s) && s.host.queue != []
    ensures Inv(HostSends(s, store))
  {
    var x, h := s.host, s.host.queue[0];
    if h !in store {
      ClearedInv(s);
    } else if store[h] <= x.credit {
      var x', fates, out := HostSends(s, store).host, [Sent(h, store[h])], [Obj(h, store[h])];
      assert fates[1..] == [] && out[1..] == [];
      assert SentOf(fates) == out;
      WaySends(s.dev, x, s.toHost, s.toDev, x', fates);
      ChannelAppend(s.toDev, out);
      WayBystander(s.host, s.dev, s.toDev, s.toHost, x', s.dev, s.toDev + out, s.toHost);
    }
  }

  lemma DevReceivesInv(s: System, store: Store)
    requires Inv(s) && s.toDev != []
    ensures Inv(DevReceives(s, store))
  {
    var p := s.toDev[0];
    if p.Grant? {
      DevGrantInv(s, p);
      DevFlushInv(s.(toDev := s.toDev[1..], dev := s.dev.(credit := s.dev.credit + p.amount)), store);
    } else {
      var (x, reply) := Consume(s.dev, p);
      WayConsumed(s.dev, s.host, s.toHost, s.toDev);
      ChannelAppend(s.toHost, reply);
      WayBystander(s.host, s.dev, s.toDev, s.toHost, s.host, x, s.toDev[1..], s.toHost + reply);
    }
  }

  /** A grant taken off the channel becomes credit. */
  lemma DevGrantInv(s: System, p: Packet)
    requires Inv(s) && s.toDev != [] && p == s.toDev[0] && p.Grant?
    ensures Inv(s.(toDev := s.toDev[1..], dev := s.dev.(credit := s.dev.credit + p.amount)))
  {
    var t := s.(toDev := s.toDev[1..], dev := s.dev.(credit := s.dev.credit + p.amount));
    WayGranted(s.host, s.dev, s.toDev, s.toHost);
    WayBystander(s.dev, s.host, s.toHost, s.toDev, t.dev, t.host, t.toHost, t.toDev);
  }

  lemma HostReceivesInv(s: System)
    requires Inv(s) && s.toHost != []
    ensures Inv(HostReceives(s))
  {
    var p := s.toHost[0];
    if p.Grant? {
      var t := HostReceives(s);
      WayGranted(s.dev, s.host, s.toHost, s.toDev);
      WayBystander(s.host, s.dev, s.toDev, s.toHost, t.host, t.dev, t.toDev, t.toHost);
    } else {
      var (x, reply) := Consume(s.host, p);
      WayConsumed(s.host, s.dev, s.toDev, s.toHost);
      ChannelAppend(s.toDev, reply);
      WayBystander(s.dev, s.host, s.toHost, s.toDev, s.dev, x, s.toHost[1..], s.toDev + reply);
    }
  }

  lemma NextInv(s: System, mv: Move)
    requires Inv(s)
    ensures Inv(Next(s, mv))
  {
    match mv {
      case DevWant(hashes, store) =>
        EnqueueInv(s, Held(hashes, store));
        DevFlushInv(s.(dev := Enqueue(s.dev, Held(hashes, store))), store);
      case DevRecv(store) => if s.toDev != [] { DevReceivesInv(s, store); }
      case HostPush(hashes) => EnqueueInv(s, hashes);
      case HostSend(store) => if s.host.queue != [] { HostSendsInv(s, store); }
      case HostRecv => if s.toHost != [] { HostReceivesInv(s); }
      case HostGiveUp => ClearedInv(s);
    }
  }

  lemma StartInv()
    ensures Inv(Start())
  {
    var ch := [Grant(WINDOW)];
    assert ch[1..] == [];
    assert GrantsOf(ch) == WINDOW && BytesOf(ch) == 0 && ObjsOf(ch) == [];
  }

  /** Every run conserves credit both ways, delivers in order, never takes the clamp, and keeps each
      window between half and one and a half grants. */
  lemma {:induction false} EveryRun(moves: seq<Move>)
    ensures Inv(After(moves))
  {
    if moves == [] {
      StartInv();
    } else {
      EveryRun(moves[..|moves| - 1]);
      NextInv(After(moves[..|moves| - 1]), moves[|moves| - 1]);
    }
  }

  // ---------------- progress ----------------

  ghost predicate Small(store: Store)
  {
    forall h :: h in store ==> store[h] <= WINDOW / 2
  }

  ghost predicate SmallMove(mv: Move)
  {
    (mv.DevWant? || mv.DevRecv? || mv.HostSend?) ==> Small(mv.store)
  }

  /** A device that still queues something is short of credit. */
  ghost predicate Starved(x: Side)
  {
    x.queue != [] ==> x.credit < WINDOW / 2
  }

  lemma NextStarved(s: System, mv: Move)
    requires Starved(s.dev) && SmallMove(mv)
    ensures Starved(Next(s, mv).dev)
  {
    match mv {
      case DevWant(hashes, store) =>
        var x := Enqueue(s.dev, Held(hashes, store));
        FlushKeeps(x.queue, x.credit, store);
      case DevRecv(store) =>
        if s.toDev != [] && s.toDev[0].Grant? {
          FlushKeeps(s.dev.queue, s.dev.credit + s.toDev[0].amount, store);
        }
      case _ =>
    }
  }

  lemma {:induction false} RunStarved(moves: seq<Move>)
    requires forall i :: 0 <= i < |moves| ==> SmallMove(moves[i])
    ensures Starved(After(moves).dev)
  {
    if moves != [] {
      RunStarved(moves[..|moves| - 1]);
      NextStarved(After(moves[..|moves| - 1]), moves[|moves| - 1]);
    }
  }

  /** With nothing in flight and objects of at most half a window, the device's queue is empty, the
      host's next send goes through, and everything sent has arrived. */
  lemma NothingInFlight(moves: seq<Move>, store: Store)
    requires (forall i :: 0 <= i < |moves| ==> SmallMove(moves[i])) && Small(store)
    requires After(moves).toDev == [] && After(moves).toHost == []
    ensures Settled(After(moves)) && HostCanSend(After(moves), store)
  {
    EveryRun(moves);
    RunStarved(moves);
    QuietSettles(After(moves), store);
  }

  ghost predicate Settled(s: System)
  {
    && s.dev.queue == [] && HashesOf(s.dev.log) == s.dev.accepted
    && s.host.got == SentOf(s.dev.log) && s.dev.got == SentOf(s.host.log)
  }

  ghost predicate HostCanSend(s: System, store: Store)
  {
    s.host.queue != [] ==>
      var h := s.host.queue[0];
      h in store ==> Next(s, HostSend(store)).toDev == s.toDev + [Obj(h, store[h])]
  }

  lemma QuietSettles(s: System, store: Store)
    requires Inv(s) && Starved(s.dev) && Small(store) && s.toDev == [] && s.toHost == []
    ensures Settled(s) && HostCanSend(s, store)
  {
    assert s.host.granted == s.dev.credit && s.dev.granted == s.host.credit;
    assert HashesOf(s.dev.log) + [] == HashesOf(s.dev.log);
    assert s.host.got + [] == s.host.got && s.dev.got + [] == s.dev.got;
  }

  function Weight(ch: seq<Packet>): nat
  {
    if ch == [] then 0 else (if ch[0].Obj? then 2 else 1) + Weight(ch[1..])
  }

  /** What is left to do: queued objects, objects in flight, grants in flight. */
  function WorkLeft(s: System): nat
  {
    3 * |s.dev.queue| + 3 * |s.host.queue| + Weight(s.toDev) + Weight(s.toHost)
  }

  lemma {:induction false} WeightAppend(a: seq<Packet>, b: seq<Packet>)
    ensures Weight(a + b) == Weight(a) + Weight(b)
  {
    if a == [] {
      assert a + b == b;
    } else {
      assert (a + b)[1..] == a[1..] + b;
      WeightAppend(a[1..], b);
    }
  }

  lemma {:induction false} SentWeight(log: seq<Fate>)
    ensures Weight(SentOf(log)) <= 2 * |log|
  {
    if log != [] {
      SentWeight(log[1..]);
      if log[0].Sent? {
        assert SentOf(log)[1..] == SentOf(log[1..]);
      }
    }
  }

  lemma DevFlushWork(s: System, store: Store)
    ensures WorkLeft(DevFlush(s, store)) <= WorkLeft(s)
  {
    var f := Flush(s.dev.queue, s.dev.credit, store);
    FlushKeeps(s.dev.queue, s.dev.credit, store);
    WeightAppend(s.toHost, SentOf(f.fates));
    SentWeight(f.fates);
    assert |HashesOf(f.fates) + f.rest| == |s.dev.queue|;
  }

  /** Every move that is not a new request and changes anything leaves strictly less to do, so no run
      goes on for ever without new requests. */
  lemma WorkDecreases(s: System, mv: Move)
    requires !mv.DevWant? && !mv.HostPush? && Next(s, mv) != s
    ensures WorkLeft(Next(s, mv)) < WorkLeft(s)
  {
    match mv {
      case DevRecv(store) =>
        var p := s.toDev[0];
        if p.Grant? {
          DevFlushWork(s.(toDev := s.toDev[1..], dev := s.dev.(credit := s.dev.credit + p.amount)), store);
        } else {
          WeightAppend(s.toHost, Consume(s.dev, p).1);
          GrantWeight();
        }
      case HostSend(store) =>
        if s.host.queue[0] in store {
          WeightAppend(s.toDev, [Obj(s.host.queue[0], store[s.host.queue[0]])]);
          GrantWeight();
        }
      case HostRecv =>
        if s.toHost[0].Obj? {
          WeightAppend(s.toDev, Consume(s.host, s.toHost[0]).1);
          GrantWeight();
        }
      case HostGiveUp =>
        assert s.host.log + [] == s.host.log;
    }
  }

  lemma GrantWeight()
    ensures Weight([Grant(WINDOW)]) == 1
    ensures forall h: Hash, len: nat :: Weight([Obj(h, len)]) == 2
  {
    assert [Grant(WINDOW)][1..] == [];
    forall h: Hash, len: nat ensures Weight([Obj(h, len)]) == 2 {
      assert [Obj(h, len)][1..] == [];
    }
  }

  /** A run that can go no further has emptied both queues and both channels: every accepted object
      left its queue in order, and every one that was sent has arrived, in order. */
  lemma StuckIsDone(moves: seq<Move>, store: Store)
    requires (forall i :: 0 <= i < |moves| ==> SmallMove(moves[i])) && Small(store)
    requires var s := After(moves); Next(s, DevRecv(store)) == s && Next(s, HostRecv) == s && Next(s, HostSend(store)) == s
    ensures var s := After(moves);
            && s.toDev == [] && s.toHost == [] && Settled(s)
            && s.host.queue == [] && HashesOf(s.host.log) == s.host.accepted
  {
    EveryRun(moves);
    RunStarved(moves);
    StuckSettles(After(moves), store);
  }

  lemma StuckSettles(s: System, store: Store)
    requires Inv(s) && Starved(s.dev) && Small(store)
    requires Next(s, DevRecv(store)) == s && Next(s, HostRecv) == s && Next(s, HostSend(store)) == s
    ensures s.toDev == [] && s.toHost == [] && Settled(s) && s.host.queue == [] && HashesOf(s.host.log) == s.host.accepted
  {
    ReceivingActs(s, store);
    QuietSettles(s, store);
    assert HashesOf(s.host.log) + [] == HashesOf(s.host.log);
  }

  /** Receiving is never a no-op: each receive takes the head off its channel. */
  lemma ReceivingActs(s: System, store: Store)
    ensures s.toDev != [] ==> |Next(s, DevRecv(store)).toDev| < |s.toDev|
    ensures s.toHost != [] ==> |Next(s, HostRecv).toHost| < |s.toHost|
  {
  }

  lemma AfterThen(moves: seq<Move>, mv: Move)
    ensures After(moves + [mv]) == Next(After(moves), mv)
  {
    assert (moves + [mv])[..|moves|] == moves;
  }

  /** Half a window is the exact limit: for every larger size there is a run that stops with that
      object queued, nothing in flight and the credit short. */
  lemma LargerCanStop(len: nat) returns (moves: seq<Move>)
    requires len > WINDOW / 2
    ensures var s := After(moves); s.toDev == [] && s.toHost == [] && s.dev.queue == [1] && s.dev.credit < len
  {
    var store := map[0 := WINDOW / 2, 1 := len];
    var first := Opened(store);
    moves := first + [DevWant([0, 1], store)];
    AfterThen(first, DevWant([0, 1], store));
    WantTwo(After(first), len, store);
    HostTakesHalf(After(moves));
    AfterThen(moves, HostRecv);
    moves := moves + [HostRecv];
  }

  /** Both hello grants received. */
  lemma Opened(store: Store) returns (moves: seq<Move>)
    ensures After(moves) == System(FRESH.(credit := WINDOW), FRESH.(credit := WINDOW), [], [], 0)
  {
    AfterThen([], DevRecv(store));
    AfterThen([DevRecv(store)], HostRecv);
    assert [] + [DevRecv(store)] == [DevRecv(store)];
    moves := [DevRecv(store)] + [HostRecv];
  }

  lemma WantTwo(s: System, len: nat, store: Store)
    requires s == System(FRESH.(credit := WINDOW), FRESH.(credit := WINDOW), [], [], 0)
    requires store == map[0 := WINDOW / 2, 1 := len] && len > WINDOW / 2
    ensures var t := Next(s, DevWant([0, 1], store));
            && t.dev.queue == [1] && t.dev.credit == WINDOW / 2
            && t.toDev == [] && t.toHost == [Obj(0, WINDOW / 2)] && t.host.granted == WINDOW
  {
    assert Held([0, 1], store) == [0, 1] by {
      assert [0, 1][..1] == [0] && [0][..0] == [];
      assert Held([0], store) == [0];
    }
    var x := Enqueue(s.dev, [0, 1]);
    assert x.queue == [0, 1] && x.credit == WINDOW by {
      assert [0, 1][..1] == [0] && [0][..0] == [];
    }
    FlushTwo(len, store);
  }

  lemma FlushTwo(len: nat, store: Store)
    requires store == map[0 := WINDOW / 2, 1 := len] && len > WINDOW / 2
    ensures Flush([0, 1], WINDOW, store) == Flushed([Sent(0, WINDOW / 2)], [1], WINDOW / 2)
    ensures SentOf([Sent(0, WINDOW / 2)]) == [Obj(0, WINDOW / 2)]
  {
    assert [0, 1][1..] == [1];
    assert Flush([1], WINDOW / 2, store) == Flushed([], [1], WINDOW / 2);
    assert [Sent(0, WINDOW / 2)][1..] == [];
  }

  lemma HostTakesHalf(s: System)
    requires s.toDev == [] && s.toHost == [Obj(0, WINDOW / 2)] && s.host.granted == WINDOW
    ensures var t := Next(s, HostRecv); t.toDev == [] && t.toHost == [] && t.dev == s.dev
  {
  }
}
