/** The bounded event queue shared by the session thread (pushes) and the render thread (drains).
    Every method body is one critical section of the queue's mutex. */
module EventQueue {
  import opened Events
  import opened Segments

  const QUEUE_CAP: nat := 512

  /** What one push leaves: the event is appended, or dropped when the queue is full. */
  function PushOne(q: seq<Event>, ev: Event): seq<Event>
  {
    if |q| < QUEUE_CAP then q + [ev] else q
  }

  /** A run of pushes, one event after the other. */
  function PushEach(q: seq<Event>, evs: seq<Event>): seq<Event>
  {
    if evs == [] then q else PushOne(PushEach(q, evs[..|evs| - 1]), evs[|evs| - 1])
  }

  /** A transaction's batch: everything or nothing. */
  function PushAll(q: seq<Event>, evs: seq<Event>): seq<Event>
  {
    if |q| + |evs| <= QUEUE_CAP then q + evs else q
  }

  /** The events a run still has room for: the longest prefix that fits. */
  function Admitted(room: nat, evs: seq<Event>): seq<Event>
  {
    if |evs| <= room then evs else evs[..room]
  }

  /** A run of single pushes keeps exactly the longest prefix that fits and loses the rest. */
  lemma {:induction false} PushEachKeepsPrefix(q: seq<Event>, evs: seq<Event>)
    requires |q| <= QUEUE_CAP
    ensures PushEach(q, evs) == q + Admitted(QUEUE_CAP - |q|, evs)
  {
    if evs == [] {
      assert q + Admitted(QUEUE_CAP - |q|, evs) == q;
    } else {
      var p, last := evs[..|evs| - 1], evs[|evs| - 1];
      PushEachKeepsPrefix(q, p);
      assert evs == p + [last];
      if |evs| > QUEUE_CAP - |q| {
        assert p[..QUEUE_CAP - |q|] == evs[..QUEUE_CAP - |q|];
      }
    }
  }

  /** The events that change the stored patch: sets and ramps of a whole part. */
  predicate Touches(ev: Event)
  {
    (ev.kind == ParamSet || ev.kind == Ramp) && ev.voice == 0
  }

  ghost predicate AnyTouches(evs: seq<Event>)
  {
    exists i :: 0 <= i < |evs| && Touches(evs[i])
  }

  ghost predicate TraceTouches(t: seq<Applied>)
  {
    exists i :: 0 <= i < |t| && Touches(t[i].ev)
  }

  lemma TouchesThen(evs: seq<Event>, ev: Event)
    ensures AnyTouches(evs + [ev]) <==> AnyTouches(evs) || Touches(ev)
  {
    var all := evs + [ev];
    if AnyTouches(evs) {
      var i :| 0 <= i < |evs| && Touches(evs[i]);
      assert Touches(all[i]);
    }
    if Touches(ev) {
      assert Touches(all[|evs|]);
    }
  }

  lemma StampTouches(evs: seq<Event>, pos: nat)
    ensures TraceTouches(Stamp(evs, pos)) <==> AnyTouches(evs)
  {
    if AnyTouches(evs) {
      var i :| 0 <= i < |evs| && Touches(evs[i]);
      assert Touches(Stamp(evs, pos)[i].ev);
    }
  }

  lemma TraceTouchesAppend(a: seq<Applied>, b: seq<Applied>)
    ensures TraceTouches(a + b) <==> TraceTouches(a) || TraceTouches(b)
  {
    if TraceTouches(a) {
      var i :| 0 <= i < |a| && Touches(a[i].ev);
      assert Touches((a + b)[i].ev);
    }
    if TraceTouches(b) {
      var i :| 0 <= i < |b| && Touches(b[i].ev);
      assert Touches((a + b)[|a| + i].ev);
    }
  }

  /** The outcome of one drain, over the whole queue at once. */
  datatype Drain<E> = Drain(e: E, kept: seq<Event>, next: nat, late: int, rampLate: int, touch: bool)

  ghost function Drained<E>(y: Synth<E>, e: E, q: seq<Event>, pos: nat, limit: nat): Drain<E>
  {
    var due, rest := Before(q, pos + 1), From(q, pos + 1);
    Drain(ApplyAll(y, e, due, pos), rest, NextTs(rest, limit), LateCount(due, pos), RampLateCount(due, pos), AnyTouches(due))
  }

  /** The same drain, one event at a time. */
  ghost function DrainOne<E>(y: Synth<E>, d: Drain<E>, ev: Event, pos: nat, limit: nat): Drain<E>
  {
    if ev.ts <= pos then
      d.(e := y.apply(d.e, ev, pos),
         late := d.late + if IsLate(ev, pos) then 1 else 0,
         rampLate := d.rampLate + if IsRampLate(ev, pos) then 1 else 0,
         touch := d.touch || Touches(ev))
    else
      d.(kept := d.kept + [ev], next := if ev.ts < limit && (d.next == 0 || ev.ts < d.next) then ev.ts else d.next)
  }

  ghost function DrainFold<E>(y: Synth<E>, e: E, q: seq<Event>, pos: nat, limit: nat): Drain<E>
  {
    if q == [] then Drain(e, [], 0, 0, 0, false)
    else DrainOne(y, DrainFold(y, e, q[..|q| - 1], pos, limit), q[|q| - 1], pos, limit)
  }

  lemma FoldNext<E>(y: Synth<E>, e: E, q: seq<Event>, i: nat, pos: nat, limit: nat)
    requires i < |q|
    ensures DrainFold(y, e, q[..i + 1], pos, limit) == DrainOne(y, DrainFold(y, e, q[..i], pos, limit), q[i], pos, limit)
  {
    assert q[..i + 1][..i] == q[..i];
  }

  lemma {:induction false} DrainFoldIsDrained<E>(y: Synth<E>, e: E, q: seq<Event>, pos: nat, limit: nat)
    ensures DrainFold(y, e, q, pos, limit) == Drained(y, e, q, pos, limit)
  {
    if q != [] {
      DrainFoldIsDrained(y, e, q[..|q| - 1], pos, limit);
      DrainedStep(y, e, q, |q| - 1, pos, limit);
      assert q[..|q| - 1 + 1] == q;
    }
  }

  lemma DrainedStep<E>(y: Synth<E>, e: E, q: seq<Event>, i: nat, pos: nat, limit: nat)
    requires i < |q|
    ensures var d, d', ev := Drained(y, e, q[..i], pos, limit), Drained(y, e, q[..i + 1], pos, limit), q[i];
            if ev.ts <= pos then
              && d'.e == y.apply(d.e, ev, pos) && d'.kept == d.kept && d'.next == d.next
              && d'.late == d.late + (if IsLate(ev, pos) then 1 else 0)
              && d'.rampLate == d.rampLate + (if IsRampLate(ev, pos) then 1 else 0)
              && d'.touch == (d.touch || Touches(ev))
            else
              && d'.e == d.e && d'.kept == d.kept + [ev] && d'.late == d.late && d'.rampLate == d.rampLate && d'.touch == d.touch
              && d'.next == if ev.ts < limit && (d.next == 0 || ev.ts < d.next) then ev.ts else d.next
  {
    var b, f := Before(q[..i], pos + 1), From(q[..i], pos + 1);
    assert q[..i + 1][..i] == q[..i];
    if q[i].ts <= pos {
      TouchesThen(b, q[i]);
      assert Before(q[..i + 1], pos + 1) == b + [q[i]] && (b + [q[i]])[..|b|] == b;
      assert From(q[..i + 1], pos + 1) == f;
    } else {
      assert From(q[..i + 1], pos + 1) == f + [q[i]] && (f + [q[i]])[..|f|] == f;
      assert Before(q[..i + 1], pos + 1) == b;
    }
  }

  /** What is left to render from `front` on makes up `total`. */
  ghost predicate Completes<E>(y: Synth<E>, front: Out<E>, cur: nat, limit: nat, total: Out<E>)
  {
    total == Join(front, Render(y, front.e, front.q, cur, limit))
  }

  lemma Advance<E>(y: Synth<E>, front: Out<E>, cur: nat, limit: nat, total: Out<E>) returns (f: Out<E>, cur': nat)
    requires cur < limit && Completes(y, front, cur, limit, total)
    ensures var s := SegStep(y, front.e, front.q, cur, limit);
            f == Join(front, s) && cur' == SegEnd(s)
    ensures Completes(y, f, cur', limit, total)
  {
    var s := SegStep(y, front.e, front.q, cur, limit);
    JoinAssoc(front, s, Render(y, s.e, s.q, SegEnd(s), limit));
    f, cur' := Join(front, s), SegEnd(s);
  }

  lemma CompletesEnd<E>(y: Synth<E>, front: Out<E>, cur: nat, limit: nat, total: Out<E>)
    requires cur >= limit && Completes(y, front, cur, limit, total)
    ensures total == front
  {
    assert front.trace + [] == front.trace && front.segs + [] == front.segs && front.audio + [] == front.audio;
  }

  lemma JoinAssoc<E>(a: Out<E>, b: Out<E>, c: Out<E>)
    ensures Join(a, Join(b, c)) == Join(Join(a, b), c)
  {
    assert a.trace + (b.trace + c.trace) == a.trace + b.trace + c.trace;
    assert a.segs + (b.segs + c.segs) == a.segs + b.segs + c.segs;
    assert a.audio + (b.audio + c.audio) == a.audio + b.audio + c.audio;
  }

  class EventQueue {
    const buf: array<Event>
    var n: nat
    var drops: nat
    var late: nat
    var rampLate: nat
    var touchPending: bool

    ghost predicate Valid()
      reads this
    {
      buf.Length == QUEUE_CAP && n <= QUEUE_CAP
    }

    ghost function Contents(): seq<Event>
      requires Valid()
      reads this, buf
    {
      buf[..n]
    }

    constructor (filler: Event)
      ensures Valid() && Contents() == [] && drops == 0 && late == 0 && rampLate == 0 && !touchPending
      ensures fresh(buf)
    {
      buf := new Event[QUEUE_CAP](_ => filler);
      n, drops, late, rampLate, touchPending := 0, 0, 0, 0, false;
    }

    method Push(ev: Event)
      requires Valid()
      modifies this`n, this`drops, buf
      ensures Valid() && Contents() == PushOne(old(Contents()), ev)
      ensures drops == old(drops) + if |old(Contents())| < QUEUE_CAP then 0 else 1
    {
      if n < QUEUE_CAP {
        buf[n] := ev;
        n := n + 1;
      } else {
        drops := drops + 1;
      }
    }

    method PushRun(evs: seq<Event>)
      requires Valid()
      modifies this`n, this`drops, buf
      ensures Valid() && Contents() == PushEach(old(Contents()), evs)
      ensures drops - old(drops) == |evs| - (|Contents()| - |old(Contents())|)
    {
      for i := 0 to |evs|
        invariant Valid() && Contents() == PushEach(old(Contents()), evs[..i])
        invariant drops - old(drops) == i - (n - old(n))
      {
        assert evs[..i + 1][..i] == evs[..i];
        if n < QUEUE_CAP {
          buf[n] := evs[i];
          n := n + 1;
        } else {
          drops := drops + 1;
        }
      }
      assert evs[..|evs|] == evs;
    }

    method PushBatch(evs: seq<Event>) returns (ok: bool)
      requires Valid()
      modifies this`n, this`drops, buf
      ensures Valid() && Contents() == PushAll(old(Contents()), evs)
      ensures ok == (|old(Contents())| + |evs| <= QUEUE_CAP)
      ensures drops == old(drops) + if ok then 0 else |evs|
    {
      ok := n + |evs| <= QUEUE_CAP;
      if ok {
        for i := 0 to |evs|
          invariant n == old(n) + i && Valid() && drops == old(drops)
          invariant Contents() == old(Contents()) + evs[..i]
        {
          buf[n] := evs[i];
          n := n + 1;
        }
        assert evs[..|evs|] == evs;
      } else {
        drops := drops + |evs|;
      }
    }

    /** One due event: count it when it missed its deadline, apply it, and note a change of the patch. */
    method ApplyEvent<E>(y: Synth<E>, e: E, ev: Event, pos: nat) returns (r: E)
      modifies this`late, this`rampLate, this`touchPending
      ensures r == y.apply(e, ev, pos) && touchPending == (old(touchPending) || Touches(ev))
      ensures late == old(late) + if IsLate(ev, pos) then 1 else 0
      ensures rampLate == old(rampLate) + if IsRampLate(ev, pos) then 1 else 0
    {
      if ev.kind == Ramp {
        if ev.end != 0 && ev.end < pos { rampLate := rampLate + 1; }
      } else if ev.ts != 0 && ev.ts < pos {
        late := late + 1;
      }
      r := y.apply(e, ev, pos);
      if Touches(ev) { touchPending := true; }
    }

    /** Move an event down to the end of the kept ones. */
    method Keep(w: nat, ev: Event)
      requires w < buf.Length
      modifies buf
      ensures buf[..w + 1] == old(buf[..w]) + [ev] && forall k :: w < k < buf.Length ==> buf[k] == old(buf[k])
    {
      buf[w] := ev;
    }

    /** One drain: apply what is due at `pos` in queue order, compact the rest in place, and report
        the earliest remaining timestamp before `limit`. */
    method ApplyDue<E>(y: Synth<E>, e: E, pos: nat, limit: nat) returns (r: E, next: nat)
      requires Valid()
      modifies this`n, this`late, this`rampLate, this`touchPending, buf
      ensures Valid()
      ensures var d := Drained(y, e, old(Contents()), pos, limit);
              && r == d.e && Contents() == d.kept && next == d.next && late == old(late) + d.late
              && rampLate == old(rampLate) + d.rampLate && touchPending == (old(touchPending) || d.touch)
    {
      ghost var q, d := Contents(), Drain(e, [], 0, 0, 0, false);
      r, next := e, 0;
      var w := 0;
      for i := 0 to n
        invariant w <= i && n == old(n) && Valid()
        invariant forall k :: i <= k < n ==> buf[k] == q[k]
        invariant d == DrainFold(y, e, q[..i], pos, limit)
        invariant d.e == r && d.next == next && d.kept == buf[..w]
        invariant d.late == late - old(late) && d.rampLate == rampLate - old(rampLate)
        invariant touchPending == (old(touchPending) || d.touch)
      {
        var ev := buf[i];
        assert ev == q[i];
        FoldNext(y, e, q, i, pos, limit);
        d := DrainOne(y, d, ev, pos, limit);
        if ev.ts <= pos {
          r := ApplyEvent(y, r, ev, pos);
        } else {
          if ev.ts < limit && (next == 0 || ev.ts < next) { next := ev.ts; }
          Keep(w, ev);
          w := w + 1;
        }
      }
      assert q[..n] == q;
      DrainFoldIsDrained(y, e, q, pos, limit);
      n := w;
    }

    /** The session thread takes over the deferred dirty mark. */
    method TakeTouch() returns (pending: bool)
      modifies this`touchPending
      ensures pending == old(touchPending) && !touchPending
    {
      pending := touchPending;
      touchPending := false;
    }

    /** One segment of the render loop: drain, service, choose the stop, render. */
    method RenderSegment<E>(y: Synth<E>, e: E, cur: nat, limit: nat) returns (r: E, audio: seq<real>, seg: nat)
      requires Valid() && cur < limit
      modifies this`n, this`late, this`rampLate, this`touchPending, buf
      ensures Valid()
      ensures var s := SegStep(y, e, old(Contents()), cur, limit);
              && r == s.e && audio == s.audio && seg == s.segs[0].len && Contents() == s.q
              && late == old(late) + s.late && rampLate == old(rampLate) + s.rampLate
              && touchPending == (old(touchPending) || TraceTouches(s.trace))
    {
      StampTouches(Before(Contents(), cur + 1), cur);
      var next;
      r, next := ApplyDue(y, e, cur, limit);
      r := y.fire(r, cur);
      var anext := y.deadline(r, cur);
      if anext != 0 && (next == 0 || anext < next) { next := anext; }
      seg := if next != 0 then (next - cur) % WORD else limit - cur;
      if seg == 0 { seg := 1; }
      if seg > limit - cur { seg := limit - cur; }
      var block := y.render(r, cur, seg);
      r, audio := block.0, block.1;
    }

    /** The main-mix render of the block [pos, limit), over the live queue. */
    method RenderWithEvents<E>(y: Synth<E>, e: E, pos: nat, limit: nat) returns (r: E, audio: seq<real>)
      requires Valid() && pos <= limit
      modifies this`n, this`late, this`rampLate, this`touchPending, buf
      ensures Valid()
      ensures var o := Render(y, e, old(Contents()), pos, limit);
              && r == o.e && audio == o.audio && Contents() == o.q
              && late == old(late) + o.late && rampLate == old(rampLate) + o.rampLate
              && touchPending == (old(touchPending) || TraceTouches(o.trace))
    {
      var cur := pos;
      ghost var front := Out(e, Contents(), [], [], [], 0, 0);
      ghost var total := Render(y, e, Contents(), cur, limit);
      r, audio := e, [];
      while cur < limit
        invariant cur <= limit && Valid()
        invariant front.e == r && front.audio == audio && front.q == Contents()
        invariant late == old(late) + front.late && rampLate == old(rampLate) + front.rampLate
        invariant Completes(y, front, cur, limit, total)
        invariant touchPending == (old(touchPending) || TraceTouches(front.trace))
        decreases limit - cur
      {
        TraceTouchesAppend(front.trace, SegStep(y, front.e, front.q, cur, limit).trace);
        ghost var cur';
        front, cur' := Advance(y, front, cur, limit, total);
        var block, seg;
        r, block, seg := RenderSegment(y, r, cur, limit);
        audio, cur := audio + block, cur + seg;
        assert cur == cur';
      }
      CompletesEnd(y, front, cur, limit, total);
    }
  }
}
