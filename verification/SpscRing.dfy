/** The lock-free single-producer single-consumer rings, as interleaved micro-steps. A load of the
    other side's cursor may return any value between the last one seen and the current one, so the
    two threads may lag behind each other arbitrarily. One-element rings are the case of writes and
    reads of a single element. */
module SpscRing {
  import opened Modular

  datatype Producer<T> = Resting | Writing(src: seq<T>, done: nat)

  datatype Consumer = Waiting | Reading(n: nat, done: nat)

  /** What the consumer made of one element of the stream. */
  datatype Fate<T> = Got(v: T) | Lost

  /** `input` is every element stored so far, `fates` what became of those the consumer passed. */
  datatype Ring<T> = Ring(buf: seq<T>, head: nat, tail: nat, seenHead: nat, seenTail: nat,
                          prod: Producer<T>, cons: Consumer, input: seq<T>, fates: seq<Fate<T>>)

  datatype Step<T> =
    | BeginWrite(src: seq<T>, tail: nat)
    | Store
    | PublishHead
    | BeginRead(n: nat, head: nat)
    | Load
    | PublishTail
    | Clear(head: nat)

  function Min(a: nat, b: nat): nat
  {
    if a < b then a else b
  }

  function Empty<T>(buf: seq<T>): Ring<T>
  {
    Ring(buf, 0, 0, 0, 0, Resting, Waiting, [], [])
  }

  /** One step; a step that is not possible, or a load of an impossible value, changes nothing. */
  function Next<T>(s: Ring<T>, st: Step<T>): Ring<T>
    requires |s.buf| > 0
  {
    var cap := |s.buf|;
    match st
    case BeginWrite(src, tail) =>
      if s.prod.Resting? && s.seenTail <= tail <= s.tail then
        var room := cap - (s.head - tail);
        s.(seenTail := tail, prod := Writing(if room < 0 then [] else src[..Min(|src|, room)], 0))
      else s
    case Store =>
      if s.prod.Writing? && s.prod.done < |s.prod.src| then
        var v := s.prod.src[s.prod.done];
        s.(buf := s.buf[(s.head + s.prod.done) % cap := v], prod := s.prod.(done := s.prod.done + 1), input := s.input + [v])
      else s
    case PublishHead =>
      if s.prod.Writing? && s.prod.done == |s.prod.src| then s.(head := s.head + |s.prod.src|, prod := Resting) else s
    case BeginRead(n, head) =>
      if s.cons.Waiting? && s.seenHead <= head <= s.head && s.tail <= head then
        s.(seenHead := head, cons := Reading(Min(n, head - s.tail), 0))
      else s
    case Load =>
      if s.cons.Reading? && s.cons.done < s.cons.n then
        s.(fates := s.fates + [Got(s.buf[(s.tail + s.cons.done) % cap])], cons := s.cons.(done := s.cons.done + 1))
      else s
    case PublishTail =>
      if s.cons.Reading? && s.cons.done == s.cons.n then s.(tail := s.tail + s.cons.n, cons := Waiting) else s
    case Clear(head) =>
      if s.cons.Waiting? && s.seenHead <= head <= s.head then
        s.(seenHead := head, tail := head, fates := s.fates + seq(if head >= |s.fates| then head - |s.fates| else 0, i => Lost))
      else s
  }

  function After<T>(buf: seq<T>, steps: seq<Step<T>>): (s: Ring<T>)
    requires |buf| > 0
    ensures |s.buf| == |buf|
  {
    if steps == [] then Empty(buf) else Next(After(buf, steps[..|steps| - 1]), steps[|steps| - 1])
  }

  // ---------------- slots ----------------

  /** Positions less than a whole ring apart have different slots. */
  lemma SlotsDiffer(i: nat, j: nat, cap: nat)
    requires cap > 0 && i < j < i + cap
    ensures i % cap != j % cap
  {
    var a, b := i / cap, j / cap;
    assert i == cap * a + i % cap && j == cap * b + j % cap;
    assert cap * (b - a) == cap * b - cap * a;
    if i % cap == j % cap {
      SmallMultiple(cap, b - a);
    }
  }

  lemma DifferenceMayWrap(head: nat, tail: nat, word: nat)
    requires tail <= head < tail + word
    ensures (head % word - tail % word) % word == head - tail
  {
    var a, b := head / word, tail / word;
    assert head == word * a + head % word && tail == word * b + tail % word;
    assert word * (a - b) == word * a - word * b;
    ModPlus(head % word - tail % word, a - b, word);
    ModUnique(head - tail, 0, head - tail, word);
  }

  lemma SlotMayWrap(x: nat, cap: nat, k: nat)
    requires cap > 0 && k > 0
    ensures cap * k > 0 && (x % (cap * k)) % cap == x % cap
  {
    Grows(cap, k);
    var word := cap * k;
    var a := x / word;
    assert x == word * a + x % word;
    assert word * a == cap * (k * a);
    ModPlus(x % word, k * a, cap);
  }

  /** The cursors may wrap: with a capacity that divides the counter range, both the slot and the
      distance between the cursors come out the same. */
  lemma CursorsMayWrap(head: nat, tail: nat, cap: nat, k: nat, word: nat)
    requires cap > 0 && k > 0 && word == cap * k && tail <= head <= tail + cap && cap < word
    ensures (head % word - tail % word) % word == head - tail
    ensures (head % word) % cap == head % cap
  {
    DifferenceMayWrap(head, tail, word);
    SlotMayWrap(head, cap, k);
  }

  // ---------------- the invariant ----------------

  /** Every element stored and not yet released is in its slot. */
  ghost predicate Kept<T>(buf: seq<T>, input: seq<T>, tail: nat)
    requires |buf| > 0
  {
    forall i :: tail <= i < |input| ==> buf[i % |buf|] == input[i]
  }

  /** What the consumer took is what the producer put, position by position. */
  ghost predicate Faithful<T>(fates: seq<Fate<T>>, input: seq<T>)
  {
    |fates| <= |input| && forall i :: 0 <= i < |fates| ==> fates[i] == Lost || fates[i] == Got(input[i])
  }

  ghost predicate Inv<T>(s: Ring<T>)
  {
    && |s.buf| > 0
    && s.seenTail <= s.tail <= s.seenHead <= s.head <= s.seenTail + |s.buf|
    && |s.input| == s.head + (if s.prod.Writing? then s.prod.done else 0)
    && |s.fates| == s.tail + (if s.cons.Reading? then s.cons.done else 0)
    && (s.prod.Writing? ==> s.prod.done <= |s.prod.src| && s.head + |s.prod.src| <= s.seenTail + |s.buf|)
    && (s.cons.Reading? ==> s.cons.done <= s.cons.n && s.tail + s.cons.n <= s.seenHead)
    && Kept(s.buf, s.input, s.tail)
    && Faithful(s.fates, s.input)
  }

  lemma StoreKeeps<T>(buf: seq<T>, input: seq<T>, tail: nat, v: T)
    requires |buf| > 0 && Kept(buf, input, tail) && tail <= |input| < tail + |buf|
    ensures Kept(buf[|input| % |buf| := v], input + [v], tail)
  {
    var buf', input' := buf[|input| % |buf| := v], input + [v];
    forall i | tail <= i < |input'| ensures buf'[i % |buf'|] == input'[i] {
      if i < |input| { SlotsDiffer(i, |input|, |buf|); }
    }
  }

  lemma StoreInv<T>(s: Ring<T>)
    requires Inv(s) && s.prod.Writing? && s.prod.done < |s.prod.src|
    ensures Inv(Next(s, Store))
  {
    StoreKeeps(s.buf, s.input, s.tail, s.prod.src[s.prod.done]);
  }

  lemma LoadInv<T>(s: Ring<T>)
    requires Inv(s) && s.cons.Reading? && s.cons.done < s.cons.n
    ensures Inv(Next(s, Load))
  {
    var i := s.tail + s.cons.done;
    assert s.buf[i % |s.buf|] == s.input[i];
  }

  lemma NextInv<T>(s: Ring<T>, st: Step<T>)
    requires Inv(s)
    ensures Inv(Next(s, st))
  {
    match st {
      case Store => if s.prod.Writing? && s.prod.done < |s.prod.src| { StoreInv(s); }
      case Load => if s.cons.Reading? && s.cons.done < s.cons.n { LoadInv(s); }
      case _ =>
    }
  }

  lemma {:induction false} AfterInv<T>(buf: seq<T>, steps: seq<Step<T>>)
    requires |buf| > 0
    ensures Inv(After(buf, steps))
  {
    if steps != [] {
      AfterInv(buf, steps[..|steps| - 1]);
      NextInv(After(buf, steps[..|steps| - 1]), steps[|steps| - 1]);
    }
  }

  // ---------------- the theorems ----------------

  /** Under every interleaving the consumer's output is the producer's input, position by position
      and in order, less the spans it cleared; it never runs ahead of what was published. */
  lemma ConsumerSeesProducer<T>(buf: seq<T>, steps: seq<Step<T>>)
    requires |buf| > 0
    ensures var s := After(buf, steps);
            s.tail <= |s.fates| <= s.head <= |s.input| && Faithful(s.fates, s.input[..s.head])
  {
    AfterInv(buf, steps);
  }

  /** The slot about to be written holds no element that is still to be read. */
  lemma NoUnreadSlotOverwritten<T>(buf: seq<T>, steps: seq<Step<T>>, i: nat)
    requires |buf| > 0
    requires var s := After(buf, steps); s.prod.Writing? && s.prod.done < |s.prod.src| && s.tail <= i < |s.input|
    ensures var s := After(buf, steps); i % |buf| != (s.head + s.prod.done) % |buf|
  {
    AfterInv(buf, steps);
    var s := After(buf, steps);
    SlotsDiffer(i, s.head + s.prod.done, |buf|);
  }

  /** What a write accepts is a prefix of what was offered, and all of it reaches the stream. */
  lemma WriteAcceptsPrefix<T>(s: Ring<T>, src: seq<T>, tail: nat)
    requires Inv(s) && s.prod.Resting? && s.seenTail <= tail <= s.tail
    ensures var w := Next(s, BeginWrite(src, tail)).prod;
            w.Writing? && w.src <= src && |w.src| == Min(|src|, |s.buf| - (s.head - tail))
  {
  }

  /** Without clears nothing is lost: the output is exactly a prefix of the input. */
  lemma {:induction false} NothingLostWithoutClear<T>(buf: seq<T>, steps: seq<Step<T>>)
    requires |buf| > 0 && forall i :: 0 <= i < |steps| ==> !steps[i].Clear?
    ensures forall i :: 0 <= i < |After(buf, steps).fates| ==> After(buf, steps).fates[i].Got?
  {
    if steps != [] {
      NothingLostWithoutClear(buf, steps[..|steps| - 1]);
      assert !steps[|steps| - 1].Clear?;
    }
  }

  // ---------------- whole calls ----------------

  /** `k` stores in a row. */
  function Stores<T>(s: Ring<T>, k: nat): (r: Ring<T>)
    requires |s.buf| > 0
    ensures |r.buf| == |s.buf|
  {
    if k == 0 then s else Next(Stores(s, k - 1), Store)
  }

  /** `k` loads in a row. */
  function Loads<T>(s: Ring<T>, k: nat): (r: Ring<T>)
    requires |s.buf| > 0
    ensures |r.buf| == |s.buf|
  {
    if k == 0 then s else Next(Loads(s, k - 1), Load)
  }

  /** The producer is `k` elements into a write of `w`. */
  ghost predicate Stored<T>(s: Ring<T>, r: Ring<T>, w: seq<T>, k: nat)
  {
    && r.prod == Writing(w, k) && r.head == s.head && r.tail == s.tail && r.fates == s.fates && r.cons == s.cons
    && k <= |w| && r.input == s.input + w[..k]
  }

  lemma {:induction false} StoresAppend<T>(s: Ring<T>, w: seq<T>, k: nat)
    requires |s.buf| > 0 && s.prod == Writing(w, 0) && k <= |w|
    ensures Stored(s, Stores(s, k), w, k)
  {
    if k > 0 {
      StoresAppend(s, w, k - 1);
      assert w[..k] == w[..k - 1] + [w[k - 1]];
    } else {
      assert s.input + w[..0] == s.input;
    }
  }

  /** The whole write, with `tail` loaded, appends what fits of `src` to the stream and publishes it. */
  ghost predicate WriteGives<T>(s: Ring<T>, src: seq<T>, tail: nat)
    requires |s.buf| > 0 && s.head - tail <= |s.buf|
  {
    var k := Min(|src|, |s.buf| - (s.head - tail));
    var r := Next(Stores(Next(s, BeginWrite(src, tail)), k), PublishHead);
    r.prod == Resting && r.head == s.head + k && r.input == s.input + src[..k] && r.fates == s.fates
  }

  lemma WriteFrom<T>(s: Ring<T>, src: seq<T>, tail: nat)
    requires Inv(s) && s.prod.Resting? && s.seenTail <= tail <= s.tail
    ensures WriteGives(s, src, tail)
  {
    var k := Min(|src|, |s.buf| - (s.head - tail));
    StoresAppend(Next(s, BeginWrite(src, tail)), src[..k], k);
    assert src[..k][..k] == src[..k];
  }

  /** A write, from any state the two threads can reach and with any load of the tail it may see, appends
      to the stream the longest prefix of what it is given that fits, and publishes it. */
  lemma WriteDelivers<T>(buf: seq<T>, steps: seq<Step<T>>, src: seq<T>, tail: nat)
    requires |buf| > 0
    requires var s := After(buf, steps); s.prod.Resting? && s.seenTail <= tail <= s.tail
    ensures After(buf, steps).head - tail <= |buf| && WriteGives(After(buf, steps), src, tail)
  {
    AfterInv(buf, steps);
    WriteFrom(After(buf, steps), src, tail);
  }

  ghost function AllGot<T>(vs: seq<T>): (r: seq<Fate<T>>)
    ensures |r| == |vs| && forall i :: 0 <= i < |vs| ==> r[i] == Got(vs[i])
  {
    seq(|vs|, i requires 0 <= i < |vs| => Got(vs[i]))
  }

  /** The consumer is `k` elements into a read of `n`. */
  ghost predicate Loaded<T>(s: Ring<T>, r: Ring<T>, n: nat, k: nat)
  {
    && r == s.(cons := Reading(n, k), fates := r.fates)
    && s.tail + k <= |s.input| && r.fates == s.fates + AllGot(s.input[s.tail..s.tail + k])
  }

  lemma LoadTakes<T>(s: Ring<T>, r: Ring<T>, n: nat, k: nat, k': nat)
    requires Inv(s) && s.cons == Reading(n, 0) && k' == k + 1 <= n && Loaded(s, r, n, k)
    ensures Loaded(s, Next(r, Load), n, k')
  {
    var i := s.tail + k;
    assert s.buf[i % |s.buf|] == s.input[i];
    assert AllGot(s.input[s.tail..s.tail + k']) == AllGot(s.input[s.tail..i]) + [Got(s.input[i])];
  }

  lemma {:induction false} LoadsTake<T>(s: Ring<T>, n: nat, k: nat)
    requires Inv(s) && s.cons == Reading(n, 0) && k <= n
    ensures Loaded(s, Loads(s, k), n, k)
  {
    if k > 0 {
      LoadsTake(s, n, k - 1);
      LoadTakes(s, Loads(s, k - 1), n, k - 1, k);
    } else {
      assert s.fates + AllGot(s.input[s.tail..s.tail + 0]) == s.fates;
    }
  }

  /** The whole read, with `head` loaded, takes the oldest unread elements of the stream, as many as were
      asked for and seen, and releases them. */
  ghost predicate ReadTakes<T>(s: Ring<T>, n: nat, head: nat)
    requires |s.buf| > 0 && s.tail <= head <= |s.input|
  {
    var k := Min(n, head - s.tail);
    var r := Next(Loads(Next(s, BeginRead(n, head)), k), PublishTail);
    && r.cons == Waiting && r.tail == s.tail + k && r.input == s.input
    && r.fates == s.fates + AllGot(s.input[s.tail..s.tail + k])
  }

  lemma ReadFrom<T>(s: Ring<T>, n: nat, head: nat)
    requires Inv(s) && s.cons.Waiting? && s.seenHead <= head <= s.head
    ensures ReadTakes(s, n, head)
  {
    var k := Min(n, head - s.tail);
    var b := s.(seenHead := head, cons := Reading(k, 0));
    ReadBegins(s, n, head, k, b);
    LoadsTake(b, k, k);
    ReadWhole(s, n, head, k, b);
  }

  lemma ReadWhole<T>(s: Ring<T>, n: nat, head: nat, k: nat, b: Ring<T>)
    requires |s.buf| > 0 && s.tail <= head <= |s.input| && k == Min(n, head - s.tail)
    requires b == s.(seenHead := head, cons := Reading(k, 0)) && Next(s, BeginRead(n, head)) == b
    requires Loaded(b, Loads(b, k), k, k)
    ensures ReadTakes(s, n, head)
  {
    ReadEnds(b, Loads(b, k), k);
  }

  lemma ReadBegins<T>(s: Ring<T>, n: nat, head: nat, k: nat, b: Ring<T>)
    requires Inv(s) && s.cons.Waiting? && s.seenHead <= head <= s.head && k == Min(n, head - s.tail)
    requires b == s.(seenHead := head, cons := Reading(k, 0))
    ensures Next(s, BeginRead(n, head)) == b && Inv(b)
  {
    NextInv(s, BeginRead(n, head));
  }

  lemma ReadEnds<T>(s: Ring<T>, r: Ring<T>, k: nat)
    requires |s.buf| > 0 && Loaded(s, r, k, k)
    ensures var t := Next(r, PublishTail);
            && t.cons == Waiting && t.tail == s.tail + k && t.input == s.input
            && t.fates == s.fates + AllGot(s.input[s.tail..s.tail + k])
  {
  }

  /** So does every read, from any state the two threads can reach and with any load of the head it may
      see. */
  lemma ReadDelivers<T>(buf: seq<T>, steps: seq<Step<T>>, n: nat, head: nat)
    requires |buf| > 0
    requires var s := After(buf, steps); s.cons.Waiting? && s.seenHead <= head <= s.head
    ensures After(buf, steps).tail <= head <= |After(buf, steps).input| && ReadTakes(After(buf, steps), n, head)
  {
    AfterInv(buf, steps);
    ReadFrom(After(buf, steps), n, head);
  }

  /** A clear, from any state the two threads can reach, loses exactly what is published and unread, and
      nothing of what is published afterwards. */
  lemma ClearDrops<T>(buf: seq<T>, steps: seq<Step<T>>, head: nat)
    requires |buf| > 0
    requires var s := After(buf, steps); s.cons.Waiting? && s.seenHead <= head <= s.head
    ensures var s, r := After(buf, steps), Next(After(buf, steps), Clear(head));
            && s.tail <= head && r.tail == head && r.input == s.input && r.head == s.head
            && |r.fates| == head && r.fates[..s.tail] == s.fates && forall i :: s.tail <= i < head ==> r.fates[i] == Lost
  {
    AfterInv(buf, steps);
    var s := After(buf, steps);
    assert |s.fates| == s.tail;
  }

  // ---------------- the ring as an object, one call at a time ----------------

  class FloatRing {
    const buf: array<real>
    var head: nat
    var tail: nat
    ghost var stream: seq<real>

    ghost predicate Valid()
      reads this, buf
    {
      buf.Length > 0 && tail <= head <= tail + buf.Length && |stream| == head && Kept(buf[..], stream, tail)
    }

    constructor (cap: nat)
      requires cap > 0
      ensures Valid() && stream == [] && tail == 0 && fresh(buf) && buf.Length == cap
    {
      buf := new real[cap](_ => 0.0);
      head, tail, stream := 0, 0, [];
    }

    /** Append as much of `src` as there is room for. */
    method Write(src: seq<real>) returns (n: nat)
      requires Valid()
      modifies this`head, this`stream, buf
      ensures Valid() && n == Min(|src|, buf.Length - |old(stream)| + tail)
      ensures stream == old(stream) + src[..n]
    {
      n := Min(|src|, buf.Length - (head - tail));
      for i := 0 to n
        invariant |stream| == head + i && stream == old(stream) + src[..i] && Kept(buf[..], stream, tail)
      {
        StoreKeeps(buf[..], stream, tail, src[i]);
        ghost var next := buf[..][|stream| % buf.Length := src[i]];
        buf[(head + i) % buf.Length] := src[i];
        assert buf[..] == next;
        stream := stream + [src[i]];
      }
      head := head + n;
    }

    /** Take the oldest unread elements, at most `n` of them. */
    method Read(n: nat) returns (dst: seq<real>)
      requires Valid()
      modifies this`tail
      ensures Valid() && tail == old(tail) + |dst| && |dst| == Min(n, |stream| - old(tail))
      ensures dst == stream[old(tail)..tail]
    {
      var k := Min(n, head - tail);
      dst := [];
      for i := 0 to k
        invariant |dst| == i && dst == stream[tail..tail + i]
      {
        assert buf[..][(tail + i) % buf.Length] == stream[tail + i];
        dst := dst + [buf[(tail + i) % buf.Length]];
      }
      tail := tail + k;
    }

    /** Drop everything readable. */
    method Clear() returns (at: nat)
      requires Valid()
      modifies this`tail
      ensures Valid() && at == tail == |stream|
    {
      at := head;
      tail := head;
    }
  }
}
