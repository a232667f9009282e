/** Sample-exact rendering of a block: the segment loop that splits [pos, pos + n) at event
    timestamps and arpeggiator deadlines, against a reference that visits every sample. */
module Segments {
  import opened Events

  const WORD: nat := 0x1_0000_0000

  /** The sound engine behind the render seam, as pure functions of its whole state: apply one event
      at a position, service panics and arpeggiator steps at a segment start, the next arpeggiator
      deadline over all parts (0 = none), and render a segment. */
  datatype Synth<!E> = Synth(
    apply: (E, Event, nat) -> E,
    fire: (E, nat) -> E,
    deadline: (E, nat) -> nat,
    render: (E, nat, nat) -> (E, seq<real>))

  /** A scheduled deadline lies strictly after the position it was asked for. */
  ghost predicate Sound<E(!new)>(y: Synth<E>)
  {
    forall e: E, p: nat :: y.deadline(e, p) == 0 || y.deadline(e, p) > p
  }

  datatype Segment = Segment(start: nat, len: nat)

  datatype Out<E> = Out(e: E, q: seq<Event>, trace: seq<Applied>, segs: seq<Segment>, audio: seq<real>,
                        late: nat, rampLate: nat)

  function Join<E>(a: Out<E>, b: Out<E>): Out<E>
  {
    Out(b.e, b.q, a.trace + b.trace, a.segs + b.segs, a.audio + b.audio, a.late + b.late, a.rampLate + b.rampLate)
  }

  // ---------------- one drain of the queue ----------------

  /** The earliest timestamp below `limit`, or 0 when there is none. */
  function NextTs(q: seq<Event>, limit: nat): nat
  {
    if q == [] then 0
    else
      var n, last := NextTs(q[..|q| - 1], limit), q[|q| - 1];
      if last.ts < limit && (n == 0 || last.ts < n) then last.ts else n
  }

  function ApplyAll<E>(y: Synth<E>, e: E, evs: seq<Event>, pos: nat): E
  {
    if evs == [] then e else y.apply(ApplyAll(y, e, evs[..|evs| - 1], pos), evs[|evs| - 1], pos)
  }

  predicate IsLate(ev: Event, pos: nat)
  {
    ev.kind != Ramp && ev.ts != 0 && ev.ts < pos
  }

  predicate IsRampLate(ev: Event, pos: nat)
  {
    ev.kind == Ramp && ev.end != 0 && ev.end < pos
  }

  function LateCount(evs: seq<Event>, pos: nat): nat
  {
    if evs == [] then 0 else LateCount(evs[..|evs| - 1], pos) + if IsLate(evs[|evs| - 1], pos) then 1 else 0
  }

  function RampLateCount(evs: seq<Event>, pos: nat): nat
  {
    if evs == [] then 0
    else RampLateCount(evs[..|evs| - 1], pos) + if IsRampLate(evs[|evs| - 1], pos) then 1 else 0
  }

  // ---------------- the segment loop ----------------

  function Earlier(next: nat, arp: nat): nat
  {
    if arp != 0 && (next == 0 || arp < next) then arp else next
  }

  /** The segment length: the difference cast to 32 bits, at least one sample, at most the block. */
  function SegLen(next: nat, cur: nat, limit: nat): (len: nat)
    requires cur < limit
    ensures 1 <= len <= limit - cur
  {
    var raw := if next != 0 then (next - cur) % WORD else limit - cur;
    var seg := if raw == 0 then 1 else raw;
    if seg > limit - cur then limit - cur else seg
  }

  function SegStep<E>(y: Synth<E>, e: E, q: seq<Event>, cur: nat, limit: nat): (o: Out<E>)
    requires cur < limit
    ensures |o.segs| == 1 && o.segs[0].start == cur && 1 <= o.segs[0].len <= limit - cur
    ensures o.q == From(q, cur + 1)
    ensures o.trace == Stamp(Before(q, cur + 1), cur)
  {
    var due, rest := Before(q, cur + 1), From(q, cur + 1);
    var e' := y.fire(ApplyAll(y, e, due, cur), cur);
    var stop := Earlier(NextTs(rest, limit), y.deadline(e', cur));
    var len := SegLen(stop, cur, limit);
    var r := y.render(e', cur, len);
    Out(r.0, rest, Stamp(due, cur), [Segment(cur, len)], r.1, LateCount(due, cur), RampLateCount(due, cur))
  }

  /** Where a single segment ends. */
  function SegEnd<E>(o: Out<E>): (end: nat)
    requires |o.segs| == 1
    ensures end == o.segs[0].start + o.segs[0].len
  {
    o.segs[0].start + o.segs[0].len
  }

  function Render<E>(y: Synth<E>, e: E, q: seq<Event>, cur: nat, limit: nat): (o: Out<E>)
    decreases if cur < limit then limit - cur else 0
  {
    if cur >= limit then Out(e, q, [], [], [], 0, 0)
    else
      var s := SegStep(y, e, q, cur, limit);
      Join(s, Render(y, s.e, s.q, SegEnd(s), limit))
  }

  /** A block is its first segment and the rest of the block. */
  lemma RenderUnfold<E>(y: Synth<E>, e: E, q: seq<Event>, cur: nat, limit: nat, s: Out<E>, mid: nat)
    requires cur < limit && s == SegStep(y, e, q, cur, limit) && mid == SegEnd(s)
    ensures Render(y, e, q, cur, limit) == Join(s, Render(y, s.e, s.q, mid, limit))
  {
  }

  /** A segment never runs past an event that is still queued. */
  lemma SegStopsAtEvents<E(!new)>(y: Synth<E>, e: E, q: seq<Event>, cur: nat, limit: nat)
    requires Sound(y) && cur < limit
    ensures var o := SegStep(y, e, q, cur, limit); NoneBefore(o.q, SegEnd(o))
  {
    var rest := From(q, cur + 1);
    NextTsIsMin(q, cur, limit);
    var e' := y.fire(ApplyAll(y, e, Before(q, cur + 1), cur), cur);
    SegLenShort(Earlier(NextTs(rest, limit), y.deadline(e', cur)), cur, limit);
  }

  lemma SegLenShort(next: nat, cur: nat, limit: nat)
    requires cur < limit && (next == 0 || cur < next)
    ensures next != 0 ==> cur + SegLen(next, cur, limit) <= next
  {
    if next != 0 {
      var d := next - cur;
      assert d % WORD <= d;
    }
  }

  lemma {:induction false} NextTsBound(q: seq<Event>, lo: nat, limit: nat)
    requires 0 < lo && NoneBefore(q, lo)
    ensures NextTs(q, limit) == 0 || lo <= NextTs(q, limit) < limit
    ensures NextTs(q, limit) == 0 ==> NoneBefore(q, limit)
    ensures NextTs(q, limit) != 0 ==> NoneBefore(q, NextTs(q, limit))
  {
    if q != [] {
      NextTsBound(q[..|q| - 1], lo, limit);
    }
  }

  lemma NextTsIsMin(q: seq<Event>, cur: nat, limit: nat)
    ensures var next := NextTs(From(q, cur + 1), limit);
            && (next == 0 || cur < next < limit)
            && NoneBefore(From(q, cur + 1), if next == 0 then limit else next)
  {
    FromBound(q, cur + 1);
    NextTsBound(From(q, cur + 1), cur + 1, limit);
  }

  // ---------------- the per-sample reference ----------------

  /** At every sample in turn, apply what is due there in queue order. */
  ghost function Schedule(q: seq<Event>, pos: nat, limit: nat): seq<Applied>
    decreases if pos < limit then limit - pos else 0
  {
    if pos >= limit then []
    else Stamp(Before(q, pos + 1), pos) + Schedule(From(q, pos + 1), pos + 1, limit)
  }

  lemma {:induction false} SkipIdle(q: seq<Event>, pos: nat, mid: nat, limit: nat)
    requires pos <= mid <= limit && NoneBefore(q, mid)
    ensures Schedule(q, pos, limit) == Schedule(q, mid, limit)
    decreases mid - pos
  {
    if pos < mid {
      FromAll(q, pos + 1);
      SkipIdle(q, pos + 1, mid, limit);
    }
  }

  /** The segments cover [cur, limit) once, left to right. */
  ghost predicate Tiles(segs: seq<Segment>, cur: nat, limit: nat)
    decreases |segs|
  {
    if segs == [] then cur == limit
    else segs[0].start == cur && segs[0].len >= 1 && Tiles(segs[1..], cur + segs[0].len, limit)
  }

  function LateIn(t: seq<Applied>): nat
  {
    if t == [] then 0 else (if IsLate(t[0].ev, t[0].pos) then 1 else 0) + LateIn(t[1..])
  }

  lemma {:induction false} LateInAppend(s: seq<Applied>, t: seq<Applied>)
    ensures LateIn(s + t) == LateIn(s) + LateIn(t)
  {
    if s == [] {
      assert s + t == t;
    } else {
      assert (s + t)[1..] == s[1..] + t;
      LateInAppend(s[1..], t);
    }
  }

  lemma {:induction false} LateInStamp(q: seq<Event>, pos: nat)
    ensures LateIn(Stamp(q, pos)) == LateCount(q, pos)
  {
    if q != [] {
      var p, last := q[..|q| - 1], q[|q| - 1];
      LateInStamp(p, pos);
      LateInAppend(Stamp(p, pos), [Applied(pos, last)]);
      assert Stamp(q, pos) == Stamp(p, pos) + [Applied(pos, last)];
      assert [Applied(pos, last)][1..] == [];
    }
  }

  lemma {:induction false} RenderTrace<E(!new)>(y: Synth<E>, e: E, q: seq<Event>, cur: nat, limit: nat)
    requires Sound(y) && cur <= limit && (cur == limit ==> NoneBefore(q, limit))
    ensures Render(y, e, q, cur, limit).trace == Schedule(q, cur, limit)
    ensures Render(y, e, q, cur, limit).q == From(q, limit)
    decreases limit - cur
  {
    if cur == limit {
      FromAll(q, limit);
    } else {
      var s, p1 := SegStep(y, e, q, cur, limit), cur + 1;
      var mid := SegEnd(s);
      var r := Render(y, s.e, s.q, mid, limit);
      assert Render(y, e, q, cur, limit) == Join(s, r);
      assert s.q == From(q, p1) && s.trace == Stamp(Before(q, p1), cur);
      assert r.trace == Schedule(s.q, p1, limit) && r.q == From(q, limit) by {
        SegStopsAtEvents(y, e, q, cur, limit);
        RenderTrace(y, s.e, s.q, mid, limit);
        SkipIdle(s.q, p1, mid, limit);
        Nested(q, p1, limit);
      }
      assert Schedule(q, cur, limit) == s.trace + Schedule(s.q, p1, limit);
    }
  }

  lemma {:induction false} RenderTiles<E>(y: Synth<E>, e: E, q: seq<Event>, cur: nat, limit: nat)
    requires cur <= limit
    ensures Tiles(Render(y, e, q, cur, limit).segs, cur, limit)
    ensures Render(y, e, q, cur, limit).late == LateIn(Render(y, e, q, cur, limit).trace)
    decreases limit - cur
  {
    if cur < limit {
      var s := SegStep(y, e, q, cur, limit);
      var mid := SegEnd(s);
      RenderTiles(y, s.e, s.q, mid, limit);
      var r := Render(y, s.e, s.q, mid, limit);
      assert (s.segs + r.segs)[1..] == r.segs;
      LateInAppend(s.trace, r.trace);
      LateInStamp(Before(q, cur + 1), cur);
    }
  }

  /** The segmented renderer applies exactly what the per-sample reference applies, whatever the
      engine and its deadlines do; it keeps the rest in order and covers every sample once. */
  lemma RenderRefinesSchedule<E(!new)>(y: Synth<E>, e: E, q: seq<Event>, pos: nat, n: nat)
    requires Sound(y) && n > 0
    ensures var o := Render(y, e, q, pos, pos + n);
            && o.trace == Schedule(q, pos, pos + n)
            && o.q == From(q, pos + n)
            && Tiles(o.segs, pos, pos + n)
            && o.late == LateIn(o.trace)
  {
    var limit := pos + n;
    assert Render(y, e, q, pos, limit).trace == Schedule(q, pos, limit) && Render(y, e, q, pos, limit).q == From(q, limit) by {
      RenderTrace(y, e, q, pos, limit);
    }
    RenderTiles(y, e, q, pos, limit);
  }

  /** Rendering in two blocks applies the same events at the same positions as rendering in one. */
  lemma {:induction false} ScheduleSplit(q: seq<Event>, pos: nat, mid: nat, limit: nat)
    requires pos < mid <= limit
    ensures Schedule(q, pos, limit) == Schedule(q, pos, mid) + Schedule(From(q, mid), mid, limit)
    decreases mid - pos
  {
    var p1 := pos + 1;
    var st, rest := Stamp(Before(q, p1), pos), From(q, p1);
    if p1 == mid {
      assert Schedule(rest, p1, mid) == [];
      assert st + [] == st;
    } else {
      var x, z := Schedule(rest, p1, mid), Schedule(From(q, mid), mid, limit);
      assert Schedule(rest, p1, limit) == x + z by {
        ScheduleSplit(rest, p1, mid, limit);
        Nested(q, p1, mid);
      }
      assert st + (x + z) == (st + x) + z;
    }
  }

  lemma RenderSplit<E(!new)>(y: Synth<E>, e: E, e': E, q: seq<Event>, pos: nat, mid: nat, limit: nat)
    requires Sound(y) && pos < mid < limit
    ensures var first := Render(y, e, q, pos, mid);
            Render(y, e, q, pos, limit).trace == first.trace + Render(y, e', first.q, mid, limit).trace
  {
    RenderTrace(y, e, q, pos, limit);
    RenderTrace(y, e, q, pos, mid);
    RenderTrace(y, e', From(q, mid), mid, limit);
    ScheduleSplit(q, pos, mid, limit);
  }

  // ---------------- the reference is the stable sort ----------------

  function Position(ev: Event, pos: nat): nat
  {
    if ev.ts < pos then pos else ev.ts
  }

  /** The events of `t` applied at `p`, in order. */
  ghost function PickAt(t: seq<Applied>, p: nat): seq<Event>
  {
    if t == [] then [] else if t[0].pos == p then [t[0].ev] + PickAt(t[1..], p) else PickAt(t[1..], p)
  }

  /** The queued events whose effect falls at `p` in a block starting at `pos`, in queue order. */
  ghost function LandingAt(q: seq<Event>, pos: nat, p: nat): seq<Event>
  {
    if p == pos then Before(q, pos + 1) else From(Before(q, p + 1), p)
  }

  /** `t` orders the events of `q` stamped before `limit` by position, ties in queue order. */
  ghost predicate StableSort(t: seq<Applied>, q: seq<Event>, pos: nat, limit: nat)
  {
    && (forall i :: 0 <= i < |t| ==> pos <= t[i].pos < limit && t[i].pos == Position(t[i].ev, pos))
    && (forall i, j :: 0 <= i < j < |t| ==> t[i].pos <= t[j].pos)
    && (forall p :: pos <= p < limit ==> PickAt(t, p) == LandingAt(q, pos, p))
  }

  lemma {:induction false} PickAtAppend(s: seq<Applied>, t: seq<Applied>, p: nat)
    ensures PickAt(s + t, p) == PickAt(s, p) + PickAt(t, p)
  {
    if s == [] {
      assert s + t == t;
    } else {
      PickAtAppend(s[1..], t, p);
      assert (s + t)[1..] == s[1..] + t && (s + t)[0] == s[0];
      var x, u, w := [s[0].ev], PickAt(s[1..], p), PickAt(t, p);
      assert x + (u + w) == (x + u) + w;
    }
  }

  lemma {:induction false} PickAtStamp(q: seq<Event>, pos: nat, p: nat)
    ensures PickAt(Stamp(q, pos), p) == if p == pos then q else []
  {
    if q != [] {
      assert Stamp(q, pos)[1..] == Stamp(q[1..], pos);
      PickAtStamp(q[1..], pos, p);
    }
  }

  lemma {:induction false} PickAtNone(t: seq<Applied>, p: nat)
    requires forall i :: 0 <= i < |t| ==> t[i].pos != p
    ensures PickAt(t, p) == []
  {
    if t != [] {
      PickAtNone(t[1..], p);
    }
  }

  lemma LandingLater(q: seq<Event>, pos: nat, p: nat)
    requires pos < p
    ensures LandingAt(From(q, pos + 1), pos + 1, p) == LandingAt(q, pos, p)
  {
    var lo, b := pos + 1, Before(q, p + 1);
    assert Before(From(q, lo), p + 1) == From(b, lo) by { Nested(q, lo, p + 1); }
    if lo < p {
      assert From(From(b, lo), p) == From(b, p) by { Nested(b, lo, p); }
    }
  }

  /** Every application lies in the block, at its event's own position. */
  ghost predicate Placed(t: seq<Applied>, pos: nat, limit: nat)
  {
    forall i :: 0 <= i < |t| ==> pos <= t[i].pos < limit && t[i].pos == Position(t[i].ev, pos)
  }

  lemma PlacedFirst(due: seq<Event>, t: seq<Applied>, pos: nat, limit: nat)
    requires pos < limit && (forall i :: 0 <= i < |due| ==> due[i].ts < pos + 1)
    requires Placed(t, pos + 1, limit) && (forall i :: 0 <= i < |t| ==> t[i].pos == t[i].ev.ts) && Sorted(t)
    ensures Placed(Stamp(due, pos) + t, pos, limit) && Sorted(Stamp(due, pos) + t)
  {
    var s := Stamp(due, pos);
    assert forall i :: 0 <= i < |s| ==> (s + t)[i] == Applied(pos, due[i]);
    assert forall i :: |s| <= i < |s + t| ==> (s + t)[i] == t[i - |s|];
  }

  lemma {:induction false} SchedulePlaced(q: seq<Event>, pos: nat, limit: nat)
    ensures Placed(Schedule(q, pos, limit), pos, limit) && Sorted(Schedule(q, pos, limit))
    decreases if pos < limit then limit - pos else 0
  {
    if pos < limit {
      var rest := From(q, pos + 1);
      SchedulePlaced(rest, pos + 1, limit);
      FromBound(q, pos + 1);
      ScheduleInRange(rest, pos + 1, limit);
      PlacedFirst(Before(q, pos + 1), Schedule(rest, pos + 1, limit), pos, limit);
    }
  }

  lemma PickFirst(due: seq<Event>, t: seq<Applied>, pos: nat, p: nat)
    requires pos <= p && (p == pos ==> forall i :: 0 <= i < |t| ==> t[i].pos > pos)
    ensures PickAt(Stamp(due, pos) + t, p) == if p == pos then due else PickAt(t, p)
  {
    PickAtAppend(Stamp(due, pos), t, p);
    PickAtStamp(due, pos, p);
    if p == pos {
      PickAtNone(t, p);
    }
  }

  lemma {:induction false} SchedulePicks(q: seq<Event>, pos: nat, limit: nat, p: nat)
    requires pos <= p < limit
    ensures PickAt(Schedule(q, pos, limit), p) == LandingAt(q, pos, p)
    decreases limit - pos
  {
    var rest := From(q, pos + 1);
    SchedulePlaced(rest, pos + 1, limit);
    PickFirst(Before(q, pos + 1), Schedule(rest, pos + 1, limit), pos, p);
    if p > pos {
      SchedulePicks(rest, pos + 1, limit, p);
      LandingLater(q, pos, p);
    }
  }

  lemma ScheduleIsStableSort(q: seq<Event>, pos: nat, limit: nat)
    ensures StableSort(Schedule(q, pos, limit), q, pos, limit)
  {
    SchedulePlaced(q, pos, limit);
    forall p | pos <= p < limit ensures PickAt(Schedule(q, pos, limit), p) == LandingAt(q, pos, p) {
      SchedulePicks(q, pos, limit, p);
    }
  }

  ghost predicate Sorted(t: seq<Applied>)
  {
    forall i, j :: 0 <= i < j < |t| ==> t[i].pos <= t[j].pos
  }

  /** Neither list starts before the other. */
  lemma HeadNotLater(s: seq<Applied>, t: seq<Applied>)
    requires s != [] && Sorted(t) && (forall p: nat :: PickAt(s, p) == PickAt(t, p))
    ensures t != [] && t[0].pos <= s[0].pos
  {
    var p := s[0].pos;
    assert PickAt(s, p) != [];
    if t == [] || p < t[0].pos {
      PickAtNone(t, p);
    }
  }

  lemma {:induction false} PicksDetermine(s: seq<Applied>, t: seq<Applied>)
    requires Sorted(s) && Sorted(t) && (forall p: nat :: PickAt(s, p) == PickAt(t, p))
    ensures s == t
  {
    if s == [] {
      if t != [] { HeadNotLater(t, s); }
    } else {
      HeadNotLater(s, t);
      HeadNotLater(t, s);
      var h := s[0].pos;
      assert PickAt(s, h)[0] == s[0].ev && PickAt(t, h)[0] == t[0].ev;
      forall p: nat ensures PickAt(s[1..], p) == PickAt(t[1..], p) {
        assert PickAt(s, p) == PickAt(t, p);
        if p == h {
          assert PickAt(s, p)[1..] == PickAt(s[1..], p);
          assert PickAt(t, p)[1..] == PickAt(t[1..], p);
        }
      }
      PicksDetermine(s[1..], t[1..]);
      assert s == [s[0]] + s[1..] && t == [t[0]] + t[1..];
    }
  }

  /** The description leaves no choice: the stable sort is what the reference computes. */
  lemma StableSortUnique(t: seq<Applied>, q: seq<Event>, pos: nat, limit: nat)
    requires StableSort(t, q, pos, limit)
    ensures t == Schedule(q, pos, limit)
  {
    var s := Schedule(q, pos, limit);
    ScheduleIsStableSort(q, pos, limit);
    forall p: nat ensures PickAt(s, p) == PickAt(t, p) {
      if p < pos || limit <= p {
        PickAtNone(s, p);
        PickAtNone(t, p);
      } else {
        assert PickAt(s, p) == LandingAt(q, pos, p);
      }
    }
    PicksDetermine(s, t);
  }

  lemma {:induction false} ScheduleInRange(q: seq<Event>, pos: nat, limit: nat)
    requires NoneBefore(q, pos)
    ensures forall i :: 0 <= i < |Schedule(q, pos, limit)| ==>
      Schedule(q, pos, limit)[i].pos == Schedule(q, pos, limit)[i].ev.ts
    decreases if pos < limit then limit - pos else 0
  {
    if pos < limit {
      FromBound(q, pos + 1);
      BeforeKeeps(q, pos + 1, pos);
      ScheduleInRange(From(q, pos + 1), pos + 1, limit);
    }
  }

  lemma {:induction false} BeforeKeeps(q: seq<Event>, limit: nat, lo: nat)
    requires NoneBefore(q, lo)
    ensures NoneBefore(Before(q, limit), lo)
  {
    if q != [] {
      BeforeKeeps(q[..|q| - 1], limit, lo);
    }
  }

  // ---------------- what the block's result may depend on ----------------

  /** Two results agree on everything but the queue they leave. */
  ghost predicate SameRender<E>(a: Out<E>, b: Out<E>)
  {
    a.e == b.e && a.trace == b.trace && a.segs == b.segs && a.audio == b.audio && a.late == b.late
    && a.rampLate == b.rampLate
  }

  lemma {:induction false} NextTsLocal(q: seq<Event>, limit: nat)
    ensures NextTs(q, limit) == NextTs(Before(q, limit), limit)
  {
    if q != [] {
      var p, last := q[..|q| - 1], q[|q| - 1];
      NextTsLocal(p, limit);
      if last.ts < limit {
        assert Before(q, limit)[..|Before(q, limit)| - 1] == Before(p, limit);
      } else {
        assert Before(q, limit) == Before(p, limit);
      }
    }
  }

  /** A block depends only on the queued events stamped before its end: the audio, the trace, the
      segments and the final engine state are the same for any two queues that agree there. */
  lemma {:induction false} RenderLocal<E>(y: Synth<E>, e: E, q: seq<Event>, q': seq<Event>, cur: nat, limit: nat)
    requires Before(q, limit) == Before(q', limit)
    ensures SameRender(Render(y, e, q, cur, limit), Render(y, e, q', cur, limit))
    decreases if cur < limit then limit - cur else 0
  {
    if cur < limit {
      SegLocal(y, e, q, q', cur, limit);
      var s, s' := SegStep(y, e, q, cur, limit), SegStep(y, e, q', cur, limit);
      RenderLocal(y, s.e, s.q, s'.q, SegEnd(s), limit);
    }
  }

  lemma SegLocal<E>(y: Synth<E>, e: E, q: seq<Event>, q': seq<Event>, cur: nat, limit: nat)
    requires cur < limit && Before(q, limit) == Before(q', limit)
    ensures var s, s' := SegStep(y, e, q, cur, limit), SegStep(y, e, q', cur, limit);
            SameRender(s, s') && Before(s.q, limit) == Before(s'.q, limit)
  {
    Nested(q, cur + 1, limit);
    Nested(q', cur + 1, limit);
    NextTsLocal(From(q, cur + 1), limit);
    NextTsLocal(From(q', cur + 1), limit);
  }
}
