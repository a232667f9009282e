/** What the lateness counters of a block count, in terms of the queue it starts from. */
module Lateness {
  import opened Events
  import opened Segments

  /** How many events of `q` satisfy `p`. */
  ghost function CountIf(q: seq<Event>, p: Event -> bool): nat
  {
    if q == [] then 0 else CountIf(q[..|q| - 1], p) + if p(q[|q| - 1]) then 1 else 0
  }

  /** A note, parameter or transport event with a timestamp of its own that lies before the block. */
  ghost function Overdue(pos: nat): Event -> bool
  {
    (ev: Event) => ev.kind != Ramp && 0 < ev.ts < pos
  }

  /** A ramp the block reaches, whose own end lies before the place where it takes effect. */
  ghost function RampOverdue(pos: nat, limit: nat): Event -> bool
  {
    (ev: Event) => ev.kind == Ramp && ev.ts < limit && 0 < ev.end && ev.end < (if ev.ts < pos then pos else ev.ts)
  }

  function RampLateIn(t: seq<Applied>): nat
  {
    if t == [] then 0 else (if IsRampLate(t[0].ev, t[0].pos) then 1 else 0) + RampLateIn(t[1..])
  }

  lemma {:induction false} RampLateInAppend(s: seq<Applied>, t: seq<Applied>)
    ensures RampLateIn(s + t) == RampLateIn(s) + RampLateIn(t)
  {
    if s == [] {
      assert s + t == t;
    } else {
      assert (s + t)[1..] == s[1..] + t;
      RampLateInAppend(s[1..], t);
    }
  }

  lemma {:induction false} RampLateInStamp(q: seq<Event>, pos: nat)
    ensures RampLateIn(Stamp(q, pos)) == RampLateCount(q, pos)
  {
    if q != [] {
      var p, last := q[..|q| - 1], q[|q| - 1];
      RampLateInStamp(p, pos);
      RampLateInAppend(Stamp(p, pos), [Applied(pos, last)]);
      assert Stamp(q, pos) == Stamp(p, pos) + [Applied(pos, last)];
      assert [Applied(pos, last)][1..] == [];
    }
  }

  lemma {:induction false} RenderRampLate<E>(y: Synth<E>, e: E, q: seq<Event>, cur: nat, limit: nat)
    ensures Render(y, e, q, cur, limit).rampLate == RampLateIn(Render(y, e, q, cur, limit).trace)
    decreases if cur < limit then limit - cur else 0
  {
    if cur < limit {
      var s := SegStep(y, e, q, cur, limit);
      var mid := SegEnd(s);
      RenderRampLate(y, s.e, s.q, mid, limit);
      RampLateInAppend(s.trace, Render(y, s.e, s.q, mid, limit).trace);
      RampLateInStamp(Before(q, cur + 1), cur);
    }
  }

  // ---------------- late notes ----------------

  lemma {:induction false} OnTime(t: seq<Applied>)
    requires forall i :: 0 <= i < |t| ==> t[i].pos == t[i].ev.ts
    ensures LateIn(t) == 0
  {
    if t != [] {
      OnTime(t[1..]);
    }
  }

  lemma {:induction false} LateCountIsBacklog(q: seq<Event>, pos: nat)
    ensures LateCount(Before(q, pos + 1), pos) == CountIf(q, Overdue(pos))
  {
    if q != [] {
      var p, last := q[..|q| - 1], q[|q| - 1];
      LateCountIsBacklog(p, pos);
      if last.ts < pos + 1 {
        var b := Before(q, pos + 1);
        assert b[..|b| - 1] == Before(p, pos + 1) && b[|b| - 1] == last;
      }
    }
  }

  lemma LateIsBacklog(q: seq<Event>, pos: nat, limit: nat)
    requires pos < limit
    ensures LateIn(Schedule(q, pos, limit)) == CountIf(q, Overdue(pos))
  {
    var rest := From(q, pos + 1);
    var s, t := Stamp(Before(q, pos + 1), pos), Schedule(rest, pos + 1, limit);
    FromBound(q, pos + 1);
    ScheduleInRange(rest, pos + 1, limit);
    OnTime(t);
    LateInAppend(s, t);
    LateInStamp(Before(q, pos + 1), pos);
    LateCountIsBacklog(q, pos);
  }

  // ---------------- late ramps ----------------

  lemma {:induction false} NoneMeets(q: seq<Event>, p: Event -> bool)
    requires forall i :: 0 <= i < |q| ==> !p(q[i])
    ensures CountIf(q, p) == 0
  {
    if q != [] {
      NoneMeets(q[..|q| - 1], p);
    }
  }

  /** A ramp is overdue where it takes effect: at the block's start, or further on. */
  lemma RampOne(ev: Event, pos: nat, limit: nat, next: nat)
    requires pos < limit && next == pos + 1
    ensures RampOverdue(pos, limit)(ev) == if ev.ts < next then IsRampLate(ev, pos) else RampOverdue(next, limit)(ev)
  {
  }

  lemma {:induction false} RampSplit(q: seq<Event>, pos: nat, limit: nat, next: nat)
    requires pos < limit && next == pos + 1
    ensures CountIf(q, RampOverdue(pos, limit))
         == RampLateCount(Before(q, next), pos) + CountIf(From(q, next), RampOverdue(next, limit))
  {
    if q != [] {
      var p, last := q[..|q| - 1], q[|q| - 1];
      RampSplit(p, pos, limit, next);
      RampOne(last, pos, limit, next);
      if last.ts < next {
        RampLateMore(Before(p, next), last, pos);
      } else {
        CountMore(From(p, next), last, RampOverdue(next, limit));
      }
    }
  }

  lemma RampLateMore(b: seq<Event>, ev: Event, pos: nat)
    ensures RampLateCount(b + [ev], pos) == RampLateCount(b, pos) + if IsRampLate(ev, pos) then 1 else 0
  {
    assert (b + [ev])[..|b|] == b;
  }

  lemma CountMore(f: seq<Event>, ev: Event, p: Event -> bool)
    ensures CountIf(f + [ev], p) == CountIf(f, p) + if p(ev) then 1 else 0
  {
    assert (f + [ev])[..|f|] == f;
  }

  lemma {:induction false} RampLateIsBacklog(q: seq<Event>, pos: nat, limit: nat)
    requires pos < limit || NoneBefore(q, limit)
    ensures RampLateIn(Schedule(q, pos, limit)) == CountIf(q, RampOverdue(pos, limit))
    decreases if pos < limit then limit - pos else 0
  {
    if pos < limit {
      var rest := From(q, pos + 1);
      FromBound(q, pos + 1);
      RampLateIsBacklog(rest, pos + 1, limit);
      RampLateInAppend(Stamp(Before(q, pos + 1), pos), Schedule(rest, pos + 1, limit));
      RampLateInStamp(Before(q, pos + 1), pos);
      RampSplit(q, pos, limit, pos + 1);
    } else {
      NoneMeets(q, RampOverdue(pos, limit));
    }
  }

  /** A block counts as late exactly the queued events stamped before it (a zero stamp never is), and as
      late ramps exactly the ramps it reaches that should have ended before they start. */
  lemma LatenessIsBacklog<E(!new)>(y: Synth<E>, e: E, q: seq<Event>, pos: nat, limit: nat)
    requires Sound(y) && pos < limit
    ensures Render(y, e, q, pos, limit).late == CountIf(q, Overdue(pos))
    ensures Render(y, e, q, pos, limit).rampLate == CountIf(q, RampOverdue(pos, limit))
  {
    RenderTrace(y, e, q, pos, limit);
    RenderTiles(y, e, q, pos, limit);
    RenderRampLate(y, e, q, pos, limit);
    LateIsBacklog(q, pos, limit);
    RampLateIsBacklog(q, pos, limit);
  }
}
