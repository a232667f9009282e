/** The mutable state of one side of the transfer: the ring of queued hashes, the peer's credit and
    the granted window. Each method is proved against the functions of module Credit. */
module Endpoint {
  import opened Credit

  function LostIn(log: seq<Fate>): nat
  {
    if log == [] then 0 else (if log[0].Lost? then 1 else 0) + LostIn(log[1..])
  }

  /** A flush over a link that takes `sends` more messages before it fails: at a failed send the queue
      and the credit are kept. */
  function FlushOver(queue: seq<Hash>, credit: nat, store: Store, sends: nat): Flushed
  {
    if queue == [] then Flushed([], [], credit)
    else
      var h := queue[0];
      if h !in store then Prefixed([Lost(h)], FlushOver(queue[1..], credit, store, sends))
      else if store[h] > credit || sends == 0 then Flushed([], queue, credit)
      else Prefixed([Sent(h, store[h])], FlushOver(queue[1..], credit - store[h], store, sends - 1))
  }

  function Prefixed(fates: seq<Fate>, r: Flushed): Flushed
  {
    Flushed(fates + r.fates, r.rest, r.credit)
  }

  /** A link that holds gives the flush of the protocol. */
  lemma {:induction false} FlushOverHolds(queue: seq<Hash>, credit: nat, store: Store, sends: nat)
    requires sends >= |queue|
    ensures FlushOver(queue, credit, store, sends) == Flush(queue, credit, store)
  {
    if queue != [] {
      if queue[0] !in store {
        FlushOverHolds(queue[1..], credit, store, sends);
      } else if store[queue[0]] <= credit {
        FlushOverHolds(queue[1..], credit - store[queue[0]], store, sends - 1);
      }
    }
  }

  /** A link that fails only cuts the flush short: what left the queue is a prefix of what would have,
      nothing else left it, and flushing the rest again over a link that holds completes it. */
  lemma {:induction false} FlushOverResumes(queue: seq<Hash>, credit: nat, store: Store, sends: nat)
    ensures var r := FlushOver(queue, credit, store, sends);
            && HashesOf(r.fates) + r.rest == queue
            && Prefixed(r.fates, Flush(r.rest, r.credit, store)) == Flush(queue, credit, store)
  {
    if queue == [] || (queue[0] in store && (store[queue[0]] > credit || sends == 0)) {
      assert HashesOf([]) + queue == queue;
      PrefixedNothing(Flush(queue, credit, store));
    } else {
      var h, lost := queue[0], queue[0] !in store;
      var credit', sends' := if lost then credit else credit - store[h], if lost then sends else sends - 1;
      var fate := HeadFate(h, store);
      FlushOverResumes(queue[1..], credit', store, sends');
      var r := FlushOver(queue[1..], credit', store, sends');
      FlushHead(queue, credit, store, sends, fate, credit', sends');
      FlushesHead(queue, credit, store, fate, credit');
      HashesFront(fate, r.fates, r.rest, queue);
      PrefixedFront(fate, r.fates, Flush(r.rest, r.credit, store));
    }
  }

  lemma HashesFront(fate: Fate, fates: seq<Fate>, rest: seq<Hash>, queue: seq<Hash>)
    requires queue != [] && fate.hash == queue[0] && HashesOf(fates) + rest == queue[1..]
    ensures HashesOf([fate] + fates) + rest == queue
  {
    assert HashesOf([fate] + fates) == [fate.hash] + HashesOf(fates);
    assert ([fate.hash] + HashesOf(fates)) + rest == [fate.hash] + (HashesOf(fates) + rest);
  }

  /** The protocol's flush takes the same head. */
  lemma FlushesHead(queue: seq<Hash>, credit: nat, store: Store, fate: Fate, credit': nat)
    requires queue != [] && fate == HeadFate(queue[0], store)
    requires if fate.Sent? then fate.len + credit' == credit else credit' == credit
    ensures Flush(queue, credit, store) == Prefixed([fate], Flush(queue[1..], credit', store))
  {
    if fate.Sent? {
      assert credit - store[queue[0]] == credit';
    }
  }

  lemma PrefixedNothing(r: Flushed)
    ensures Prefixed([], r) == r
  {
    assert [] + r.fates == r.fates;
  }

  lemma PrefixedFront(fate: Fate, fates: seq<Fate>, r: Flushed)
    ensures Prefixed([fate] + fates, r) == Prefixed([fate], Prefixed(fates, r))
  {
    assert ([fate] + fates) + r.fates == [fate] + (fates + r.fates);
  }

  /** What a flush in progress has left to do completes `total`. */
  ghost predicate FlushCompletes(fates: seq<Fate>, queue: seq<Hash>, credit: nat, store: Store, sends: nat, total: Flushed)
  {
    Prefixed(fates, FlushOver(queue, credit, store, sends)) == total
  }

  lemma PrefixedTwice(fates: seq<Fate>, fate: Fate, r: Flushed)
    ensures Prefixed(fates, Prefixed([fate], r)) == Prefixed(fates + [fate], r)
  {
    assert fates + ([fate] + r.fates) == fates + [fate] + r.fates;
  }

  /** The fate of the head, if it leaves the queue. */
  function HeadFate(h: Hash, store: Store): Fate
  {
    if h in store then Sent(h, store[h]) else Lost(h)
  }

  /** The head leaves the queue, sent or lost. */
  lemma FlushHead(queue: seq<Hash>, credit: nat, store: Store, sends: nat, fate: Fate, credit': nat, sends': nat)
    requires queue != [] && fate == HeadFate(queue[0], store)
    requires if fate.Sent? then fate.len + credit' == credit && sends' + 1 == sends else credit' == credit && sends' == sends
    ensures FlushOver(queue, credit, store, sends) == Prefixed([fate], FlushOver(queue[1..], credit', store, sends'))
  {
  }

  lemma CompletesStep(fates: seq<Fate>, queue: seq<Hash>, credit: nat, store: Store, sends: nat, total: Flushed,
        fate: Fate, credit': nat, sends': nat)
    requires queue != [] && FlushCompletes(fates, queue, credit, store, sends, total) && fate == HeadFate(queue[0], store)
    requires if fate.Sent? then fate.len + credit' == credit && sends' + 1 == sends else credit' == credit && sends' == sends
    ensures FlushCompletes(fates + [fate], queue[1..], credit', store, sends', total)
    ensures SentOf(fates + [fate]) == SentOf(fates) + if fate.Sent? then [Obj(fate.hash, fate.len)] else []
    ensures LostIn(fates + [fate]) == LostIn(fates) + if fate.Lost? then 1 else 0
  {
    FlushHead(queue, credit, store, sends, fate, credit', sends');
    PrefixedTwice(fates, fate, FlushOver(queue[1..], credit', store, sends'));
    SentThen(fates, fate);
  }

  /** Nothing more leaves the queue. */
  lemma CompletesStop(fates: seq<Fate>, queue: seq<Hash>, credit: nat, store: Store, sends: nat, total: Flushed)
    requires FlushCompletes(fates, queue, credit, store, sends, total)
    requires queue == [] || (queue[0] in store && (store[queue[0]] > credit || sends == 0))
    ensures total == Flushed(fates, queue, credit)
  {
    assert fates + [] == fates;
  }

  lemma {:induction false} SentThen(log: seq<Fate>, fate: Fate)
    ensures SentOf(log + [fate]) == SentOf(log) + if fate.Sent? then [Obj(fate.hash, fate.len)] else []
    ensures LostIn(log + [fate]) == LostIn(log) + if fate.Lost? then 1 else 0
  {
    if log == [] {
      assert log + [fate] == [fate] && [fate][1..] == [];
    } else {
      assert (log + [fate])[1..] == log[1..] + [fate];
      SentThen(log[1..], fate);
    }
  }

  /** The `count` entries of a ring from `head` on. */
  function Unrolled(ring: seq<Hash>, head: nat, count: nat): (q: seq<Hash>)
    requires |ring| == SENDQ_CAP && head < SENDQ_CAP && count <= SENDQ_CAP
    ensures |q| == count
  {
    (ring + ring)[head..head + count]
  }

  lemma UnrolledPush(ring: seq<Hash>, head: nat, count: nat, h: Hash)
    requires |ring| == SENDQ_CAP && head < SENDQ_CAP && count < SENDQ_CAP
    ensures Unrolled(ring[(head + count) % SENDQ_CAP := h], head, count + 1) == Unrolled(ring, head, count) + [h]
  {
    var tail := (head + count) % SENDQ_CAP;
    assert tail == if head + count < SENDQ_CAP then head + count else head + count - SENDQ_CAP;
    var ring' := ring[tail := h];
    var d, d' := ring + ring, ring' + ring';
    forall i | head <= i < head + count ensures d'[i] == d[i] {
      assert i != tail && i != tail + SENDQ_CAP;
    }
    assert d'[head + count] == h;
    SliceThen(d, d', head, head + count, h);
  }

  lemma SliceThen(d: seq<Hash>, d': seq<Hash>, lo: nat, hi: nat, h: Hash)
    requires lo <= hi < |d| && |d'| == |d| && d'[hi] == h && forall i :: lo <= i < hi ==> d'[i] == d[i]
    ensures d'[lo..hi + 1] == d[lo..hi] + [h]
  {
  }

  lemma UnrolledPop(ring: seq<Hash>, head: nat, count: nat)
    requires |ring| == SENDQ_CAP && head < SENDQ_CAP && 0 < count <= SENDQ_CAP
    ensures Unrolled(ring, head, count)[0] == ring[head]
    ensures Unrolled(ring, (head + 1) % SENDQ_CAP, count - 1) == Unrolled(ring, head, count)[1..]
  {
  }

  class Endpoint {
    const ring: array<Hash>
    var head: nat
    var tail: nat
    var count: nat
    var credit: nat
    var granted: nat
    var drops: nat

    ghost predicate Valid()
      reads this
    {
      ring.Length == SENDQ_CAP && head < SENDQ_CAP && count <= SENDQ_CAP && tail == (head + count) % SENDQ_CAP
    }

    ghost function Queue(): (q: seq<Hash>)
      requires Valid()
      reads this, ring
      ensures |q| == count
    {
      Unrolled(ring[..], head, count)
    }

    constructor ()
      ensures Valid() && Queue() == [] && credit == 0 && granted == 0 && drops == 0 && fresh(ring)
    {
      ring := new Hash[SENDQ_CAP](_ => 0);
      head, tail, count, credit, granted, drops := 0, 0, 0, 0, 0, 0;
    }

    method Push(h: Hash)
      requires Valid()
      modifies this`tail, this`count, this`drops, ring
      ensures Valid()
      ensures if |old(Queue())| == SENDQ_CAP then Queue() == old(Queue()) && drops == old(drops) + 1
              else Queue() == old(Queue()) + [h] && drops == old(drops)
    {
      if count == SENDQ_CAP {
        drops := drops + 1;
        return;
      }
      UnrolledPush(ring[..], head, count, h);
      ghost var r := ring[..][tail := h];
      ring[tail] := h;
      assert ring[..] == r;
      tail := (tail + 1) % SENDQ_CAP;
      count := count + 1;
    }

    /** Take the head off the queue. */
    method Pop()
      requires Valid() && count > 0
      modifies this`head, this`count
      ensures Valid() && Queue() == old(Queue())[1..]
    {
      UnrolledPop(ring[..], head, count);
      head := (head + 1) % SENDQ_CAP;
      count := count - 1;
    }

    /** One turn of the flush: the head leaves the queue, unless the credit does not cover it or the
        link is down. */
    method TakeHead(store: Store, up: bool) returns (gone: bool, fate: Fate)
      requires Valid() && count > 0
      modifies this`head, this`count, this`credit, this`drops
      ensures Valid() && fate == HeadFate(old(Queue())[0], store)
      ensures gone == (fate.Sent? ==> fate.len <= old(credit) && up)
      ensures Queue() == if gone then old(Queue())[1..] else old(Queue())
      ensures credit == old(credit) - if gone && fate.Sent? then fate.len else 0
      ensures drops == old(drops) + if fate.Lost? then 1 else 0
    {
      var h := ring[head];
      UnrolledPop(ring[..], head, count);
      if h !in store {
        gone, fate := true, Lost(h);
        Pop();
        drops := drops + 1;
      } else {
        fate := Sent(h, store[h]);
        gone := fate.len <= credit && up;
        if gone {
          credit := credit - fate.len;
          Pop();
        }
      }
    }

    /** Send from the front while the credit covers the head and the link holds; drop what no longer
        resolves. */
    method FlushQueue(store: Store, sends: nat) returns (out: seq<Packet>)
      requires Valid()
      modifies this`head, this`count, this`credit, this`drops
      ensures Valid()
      ensures var f := FlushOver(old(Queue()), old(credit), store, sends);
              Queue() == f.rest && credit == f.credit && out == SentOf(f.fates) && drops == old(drops) + LostIn(f.fates)
    {
      ghost var total, fates: seq<Fate> := FlushOver(Queue(), credit, store, sends), [];
      var left := sends;
      PrefixedNothing(total);
      out := [];
      while count > 0
        invariant Valid() && FlushCompletes(fates, Queue(), credit, store, left, total)
        invariant out == SentOf(fates) && drops == old(drops) + LostIn(fates)
        decreases count
      {
        ghost var q, c, before := Queue(), credit, left;
        var gone, fate := TakeHead(store, left > 0);
        if !gone { break; }
        if fate.Sent? {
          out := out + [Obj(fate.hash, fate.len)];
          left := left - 1;
        }
        CompletesStep(fates, q, c, store, before, total, fate, credit, left);
        fates := fates + [fate];
      }
      CompletesStop(fates, Queue(), credit, store, left, total);
    }

    /** Consume a received object of `len` bytes; report the grant it calls for, if any. */
    method Received(p: Packet) returns (reply: seq<Packet>)
      requires Valid() && p.Obj?
      modifies this`granted
      ensures Valid() && Queue() == old(Queue()) && credit == old(credit)
      ensures var x := FRESH.(granted := old(granted)); granted == Consume(x, p).0.granted && reply == Consume(x, p).1
    {
      reply := [];
      if granted >= p.len {
        granted := granted - p.len;
      } else {
        granted := 0;
      }
      if granted < WINDOW / 2 {
        granted := granted + WINDOW;
        reply := [Grant(WINDOW)];
      }
    }
  }
}
