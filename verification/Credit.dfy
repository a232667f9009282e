/** Credit-based object transfer: two symmetric sliding windows over two in-order channels. Each side
    grants its peer a window, sends queued objects in order while the peer's credit covers the head,
    and grants again when consumption has brought its own window below half.

    A run is any sequence of moves; a move that is not possible leaves the state unchanged. The store
    lookup is part of a move, so an object may come and go between moves. */
module Credit {

  const WINDOW: nat := 0x100_0000
  const SENDQ_CAP: nat := 1024
  const WANT_CAP: nat := 256

  type Hash = nat

  /** What the store holds: the encoded length of each object. */
  type Store = map<Hash, nat>

  datatype Packet = Grant(amount: nat) | Obj(hash: Hash, len: nat)

  /** What became of an object that left the queue. */
  datatype Fate = Sent(hash: Hash, len: nat) | Lost(hash: Hash)

  datatype Side = Side(granted: nat, credit: nat, queue: seq<Hash>, drops: nat,
                       accepted: seq<Hash>, log: seq<Fate>, got: seq<Packet>)

  datatype System = System(dev: Side, host: Side, toDev: seq<Packet>, toHost: seq<Packet>, clamps: nat)

  datatype Move =
    | DevWant(hashes: seq<Hash>, store: Store)
    | DevRecv(store: Store)
    | HostPush(hashes: seq<Hash>)
    | HostSend(store: Store)
    | HostRecv
    | HostGiveUp

  // ---------------- one side ----------------

  /** Enqueue in order; what does not fit is dropped and counted. */
  function Enqueue(x: Side, hashes: seq<Hash>): Side
  {
    if hashes == [] then x
    else
      var y := Enqueue(x, hashes[..|hashes| - 1]);
      var h := hashes[|hashes| - 1];
      if |y.queue| == SENDQ_CAP then y.(drops := y.drops + 1)
      else y.(queue := y.queue + [h], accepted := y.accepted + [h])
  }

  /** The requested objects that the store holds, in order, at most as many as one request may name. */
  function Held(hashes: seq<Hash>, store: Store): seq<Hash>
  {
    if hashes == [] then []
    else
      var r, h := Held(hashes[..|hashes| - 1], store), hashes[|hashes| - 1];
      if |r| < WANT_CAP && h in store then r + [h] else r
  }

  datatype Flushed = Flushed(fates: seq<Fate>, rest: seq<Hash>, credit: nat)

  /** Send from the front while the credit covers the head; an unresolvable head is dropped. */
  function Flush(queue: seq<Hash>, credit: nat, store: Store): Flushed
  {
    if queue == [] then Flushed([], [], credit)
    else
      var h := queue[0];
      if h !in store then
        var r := Flush(queue[1..], credit, store);
        Flushed([Lost(h)] + r.fates, r.rest, r.credit)
      else if store[h] > credit then Flushed([], queue, credit)
      else
        var r := Flush(queue[1..], credit - store[h], store);
        Flushed([Sent(h, store[h])] + r.fates, r.rest, r.credit)
  }

  function HashesOf(log: seq<Fate>): (r: seq<Hash>)
    ensures |r| == |log|
  {
    seq(|log|, i requires 0 <= i < |log| => log[i].hash)
  }

  /** The packets of the objects that were sent. */
  function SentOf(log: seq<Fate>): seq<Packet>
  {
    if log == [] then []
    else if log[0].Sent? then [Obj(log[0].hash, log[0].len)] + SentOf(log[1..])
    else SentOf(log[1..])
  }

  function BytesOf(ch: seq<Packet>): nat
  {
    if ch == [] then 0 else (if ch[0].Obj? then ch[0].len else 0) + BytesOf(ch[1..])
  }

  function GrantsOf(ch: seq<Packet>): nat
  {
    if ch == [] then 0 else (if ch[0].Grant? then ch[0].amount else 0) + GrantsOf(ch[1..])
  }

  /** The object packets of a channel, in order. */
  function ObjsOf(ch: seq<Packet>): seq<Packet>
  {
    if ch == [] then [] else if ch[0].Obj? then [ch[0]] + ObjsOf(ch[1..]) else ObjsOf(ch[1..])
  }

  function AfterFlush(x: Side, f: Flushed): Side
  {
    x.(queue := f.rest, credit := f.credit, log := x.log + f.fates)
  }

  /** An object was consumed: shrink the window, and below half of it grant a fresh one. */
  function Consume(x: Side, p: Packet): (Side, seq<Packet>)
    requires p.Obj?
  {
    var g := if x.granted >= p.len then x.granted - p.len else 0;
    var y := x.(granted := g, got := x.got + [p]);
    if g < WINDOW / 2 then (y.(granted := g + WINDOW), [Grant(WINDOW)]) else (y, [])
  }

  // ---------------- the two sides together ----------------

  const FRESH: Side := Side(WINDOW, 0, [], 0, [], [], [])

  /** After the hello: each side has granted one window, still in flight. */
  function Start(): System
  {
    System(FRESH, FRESH, [Grant(WINDOW)], [Grant(WINDOW)], 0)
  }

  function Clamp(x: Side, p: Packet): nat
    requires p.Obj?
  {
    if x.granted >= p.len then 0 else 1
  }

  function DevFlush(s: System, store: Store): System
  {
    var f := Flush(s.dev.queue, s.dev.credit, store);
    s.(dev := AfterFlush(s.dev, f), toHost := s.toHost + SentOf(f.fates))
  }

  function Losses(queue: seq<Hash>): (r: seq<Fate>)
    ensures |r| == |queue|
  {
    seq(|queue|, i requires 0 <= i < |queue| => Lost(queue[i]))
  }

  /** The host abandons a push: the queue is cleared so that no stale order leaks. */
  function Cleared(x: Side): Side
  {
    x.(queue := [], log := x.log + Losses(x.queue))
  }

  function HostSends(s: System, store: Store): System
    requires s.host.queue != []
  {
    var x := s.host;
    var h := x.queue[0];
    if h !in store then s.(host := Cleared(x))
    else if store[h] <= x.credit then
      s.(host := x.(queue := x.queue[1..], credit := x.credit - store[h], log := x.log + [Sent(h, store[h])]),
         toDev := s.toDev + [Obj(h, store[h])])
    else s
  }

  function DevReceives(s: System, store: Store): System
    requires s.toDev != []
  {
    var p := s.toDev[0];
    if p.Grant? then DevFlush(s.(toDev := s.toDev[1..], dev := s.dev.(credit := s.dev.credit + p.amount)), store)
    else
      var (x, reply) := Consume(s.dev, p);
      System(x, s.host, s.toDev[1..], s.toHost + reply, s.clamps + Clamp(s.dev, p))
  }

  function HostReceives(s: System): System
    requires s.toHost != []
  {
    var p := s.toHost[0];
    if p.Grant? then s.(toHost := s.toHost[1..], host := s.host.(credit := s.host.credit + p.amount))
    else
      var (x, reply) := Consume(s.host, p);
      System(s.dev, x, s.toDev + reply, s.toHost[1..], s.clamps + Clamp(s.host, p))
  }

  function Next(s: System, mv: Move): System
  {
    match mv
    case DevWant(hashes, store) => DevFlush(s.(dev := Enqueue(s.dev, Held(hashes, store))), store)
    case DevRecv(store) => if s.toDev == [] then s else DevReceives(s, store)
    case HostPush(hashes) => s.(host := Enqueue(s.host, hashes))
    case HostSend(store) => if s.host.queue == [] then s else HostSends(s, store)
    case HostRecv => if s.toHost == [] then s else HostReceives(s)
    case HostGiveUp => s.(host := Cleared(s.host))
  }

  function After(moves: seq<Move>): System
  {
    if moves == [] then Start() else Next(After(moves[..|moves| - 1]), moves[|moves| - 1])
  }
}
