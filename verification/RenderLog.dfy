/** What a block does to its engine, step by step: the log of a block is the engine calls it makes, and
    the engine it leaves and the audio it returns are the fold of that log. The log holds exactly the
    scheduled applications, and for every segment one service call and one render call after them. */
module RenderLog {
  import opened Events
  import opened Segments

  /** One call into the engine. */
  datatype Step = App(ev: Event, pos: nat) | Fire(pos: nat) | Play(pos: nat, n: nat)

  /** The same engine, keeping a log of the calls made to it. */
  function Logging<E>(y: Synth<E>): Synth<(E, seq<Step>)>
  {
    Synth((x: (E, seq<Step>), ev: Event, p: nat) => (y.apply(x.0, ev, p), x.1 + [App(ev, p)]),
          (x: (E, seq<Step>), p: nat) => (y.fire(x.0, p), x.1 + [Fire(p)]),
          (x: (E, seq<Step>), p: nat) => y.deadline(x.0, p),
          (x: (E, seq<Step>), p: nat, n: nat) => var r := y.render(x.0, p, n); ((r.0, x.1 + [Play(p, n)]), r.1))
  }

  /** The log of a block. */
  ghost function BlockLog<E>(y: Synth<E>, e: E, q: seq<Event>, cur: nat, limit: nat): seq<Step>
  {
    Render(Logging(y), (e, []), q, cur, limit).e.1
  }

  // ---------------- what a log does ----------------

  /** One logged call, on an engine and the audio so far. */
  function Replayed<E>(y: Synth<E>, x: (E, seq<real>), s: Step): (E, seq<real>)
  {
    match s
    case App(ev, pos) => (y.apply(x.0, ev, pos), x.1)
    case Fire(pos) => (y.fire(x.0, pos), x.1)
    case Play(pos, n) => var r := y.render(x.0, pos, n); (r.0, x.1 + r.1)
  }

  ghost function Fold<E>(y: Synth<E>, e: E, log: seq<Step>): (E, seq<real>)
  {
    if log == [] then (e, []) else Replayed(y, Fold(y, e, log[..|log| - 1]), log[|log| - 1])
  }

  /** The applications of a log. */
  ghost function AppsOf(log: seq<Step>): seq<Applied>
  {
    if log == [] then []
    else
      var rest, s := AppsOf(log[..|log| - 1]), log[|log| - 1];
      if s.App? then rest + [Applied(s.pos, s.ev)] else rest
  }

  /** The rendered segments of a log. */
  ghost function PlaysOf(log: seq<Step>): seq<Segment>
  {
    if log == [] then []
    else
      var rest, s := PlaysOf(log[..|log| - 1]), log[|log| - 1];
      if s.Play? then rest + [Segment(s.pos, s.n)] else rest
  }

  /** The log is, for each segment in turn, applications at its start, one service call there, and one
      render call of its length. */
  ghost predicate Grouped(log: seq<Step>, segs: seq<Segment>)
    decreases |segs|
  {
    if segs == [] then log == []
    else exists k :: 0 <= k <= |log| - 2 && GroupOf(log, k, segs[0]) && Grouped(log[k + 2..], segs[1..])
  }

  /** The log starts with `k` applications at the start of `p`, its service call and its render call. */
  ghost predicate GroupOf(log: seq<Step>, k: nat, p: Segment)
    requires k + 2 <= |log|
  {
    && (forall j :: 0 <= j < k ==> log[j].App? && log[j].pos == p.start)
    && log[k] == Fire(p.start) && log[k + 1] == Play(p.start, p.len)
  }

  ghost predicate HasTs(q: seq<Event>, ts: nat)
  {
    exists i :: 0 <= i < |q| && q[i].ts == ts
  }

  /** A render call with engine `e`: it does not run past the deadline the engine reports, and it is no
      shorter than it need be (it ends with the block, at a queued timestamp or at the deadline, unless
      the 32-bit difference to a far deadline cuts it). */
  ghost predicate PlayStops<E>(y: Synth<E>, e: E, q: seq<Event>, limit: nat, pos: nat, n: nat)
  {
    var end, d := pos + n, y.deadline(e, pos);
    && (d == 0 || end <= d)
    && (end == limit || end == d || HasTs(q, end) || limit >= pos + WORD || d >= pos + WORD)
  }

  /** Every render call of the log is such a call, for the engine that the log before it makes. */
  ghost predicate Obeys<E>(y: Synth<E>, e: E, q: seq<Event>, limit: nat, log: seq<Step>)
  {
    if log == [] then true
    else
      var before, s := log[..|log| - 1], log[|log| - 1];
      Obeys(y, e, q, limit, before) && (s.Play? ==> PlayStops(y, Fold(y, e, before).0, q, limit, s.pos, s.n))
  }

  // ---------------- one segment ----------------

  function Apps(evs: seq<Event>, pos: nat): (r: seq<Step>)
    ensures |r| == |evs| && forall i :: 0 <= i < |evs| ==> r[i] == App(evs[i], pos)
  {
    seq(|evs|, i requires 0 <= i < |evs| => App(evs[i], pos))
  }

  lemma {:induction false} ApplyAllLogs<E>(y: Synth<E>, e: E, l: seq<Step>, evs: seq<Event>, pos: nat)
    ensures ApplyAll(Logging(y), (e, l), evs, pos) == (ApplyAll(y, e, evs, pos), l + Apps(evs, pos))
  {
    if evs == [] {
      assert l + Apps(evs, pos) == l;
    } else {
      var p, last := evs[..|evs| - 1], evs[|evs| - 1];
      ApplyAllLogs(y, e, l, p, pos);
      assert (l + Apps(p, pos)) + [App(last, pos)] == l + Apps(evs, pos);
    }
  }

  /** The log of one segment. */
  ghost function SegmentLog(q: seq<Event>, cur: nat, len: nat): seq<Step>
  {
    Apps(Before(q, cur + 1), cur) + [Fire(cur), Play(cur, len)]
  }

  lemma LogRegroup(l: seq<Step>, a: seq<Step>, f: Step, p: Step)
    ensures ((l + a) + [f]) + [p] == l + (a + [f, p])
  {
  }

  /** A logging engine goes through a segment as the engine itself does, and logs the segment. */
  lemma SegLogs<E>(y: Synth<E>, e: E, l: seq<Step>, q: seq<Event>, cur: nat, limit: nat)
    requires cur < limit
    ensures var s := SegStep(y, e, q, cur, limit);
            SegStep(Logging(y), (e, l), q, cur, limit) == WithLog(s, l + SegmentLog(q, cur, s.segs[0].len))
  {
    var due := Before(q, cur + 1);
    ApplyAllLogs(y, e, l, due, cur);
    LogRegroup(l, Apps(due, cur), Fire(cur), Play(cur, SegStep(y, e, q, cur, limit).segs[0].len));
  }

  // ---------------- the whole block ----------------

  /** The calls of a block, segment by segment. */
  ghost function Calls<E>(y: Synth<E>, e: E, q: seq<Event>, cur: nat, limit: nat): seq<Step>
    decreases if cur < limit then limit - cur else 0
  {
    if cur >= limit then []
    else
      var s := SegStep(y, e, q, cur, limit);
      SegmentLog(q, cur, s.segs[0].len) + Calls(y, s.e, s.q, SegEnd(s), limit)
  }

  /** The calls of the first segment, then those of the rest. */
  lemma CallsUnfold<E>(y: Synth<E>, e: E, q: seq<Event>, cur: nat, limit: nat, s: Out<E>, len: nat, mid: nat,
        g: seq<Step>, rest: seq<Step>)
    requires cur < limit && s == SegStep(y, e, q, cur, limit) && len == s.segs[0].len && mid == SegEnd(s)
    requires g == SegmentLog(q, cur, len) && rest == Calls(y, s.e, s.q, mid, limit)
    ensures Calls(y, e, q, cur, limit) == g + rest
  {
  }

  /** The result `o` as a logging engine has it, whose log has become `l`. */
  ghost function WithLog<E>(o: Out<E>, l: seq<Step>): Out<(E, seq<Step>)>
  {
    Out((o.e, l), o.q, o.trace, o.segs, o.audio, o.late, o.rampLate)
  }

  /** A logging engine renders as the engine itself does, and its log grows by the calls. */
  lemma {:induction false} RenderLogs<E>(y: Synth<E>, e: E, l: seq<Step>, q: seq<Event>, cur: nat, limit: nat)
    ensures Render(Logging(y), (e, l), q, cur, limit) == WithLog(Render(y, e, q, cur, limit), l + Calls(y, e, q, cur, limit))
    decreases if cur < limit then limit - cur else 0
  {
    if cur < limit {
      var s := SegStep(y, e, q, cur, limit);
      var len := s.segs[0].len;
      var mid, g := SegEnd(s), SegmentLog(q, cur, len);
      var rest, t := Calls(y, s.e, s.q, mid, limit), WithLog(s, l + g);
      RenderLogs(y, s.e, l + g, s.q, mid, limit);
      CallsUnfold(y, e, q, cur, limit, s, len, mid, g, rest);
      SegLogs(y, e, l, q, cur, limit);
      RenderUnfold(y, e, q, cur, limit, s, mid);
      RenderUnfold(Logging(y), (e, l), q, cur, limit, t, mid);
      JoinLogged(s, Render(y, s.e, s.q, mid, limit), l, g, rest);
    } else {
      assert l + [] == l;
    }
  }

  lemma JoinLogged<E>(s: Out<E>, o: Out<E>, l: seq<Step>, g: seq<Step>, rest: seq<Step>)
    ensures Join(WithLog(s, l + g), WithLog(o, (l + g) + rest)) == WithLog(Join(s, o), l + (g + rest))
  {
    assert (l + g) + rest == l + (g + rest);
  }

  lemma {:induction false} OfAppend(a: seq<Step>, b: seq<Step>)
    ensures AppsOf(a + b) == AppsOf(a) + AppsOf(b)
    ensures PlaysOf(a + b) == PlaysOf(a) + PlaysOf(b)
  {
    if b == [] {
      assert a + b == a;
    } else {
      assert (a + b)[..|a + b| - 1] == a + b[..|b| - 1];
      OfAppend(a, b[..|b| - 1]);
    }
  }

  lemma {:induction false} OfApps(evs: seq<Event>, pos: nat)
    ensures AppsOf(Apps(evs, pos)) == Stamp(evs, pos)
    ensures PlaysOf(Apps(evs, pos)) == []
  {
    if evs != [] {
      var p := evs[..|evs| - 1];
      OfApps(p, pos);
      assert Apps(evs, pos)[..|evs| - 1] == Apps(p, pos);
      assert Stamp(evs, pos) == Stamp(p, pos) + [Applied(pos, evs[|evs| - 1])];
    }
  }

  lemma OfSegment(q: seq<Event>, cur: nat, len: nat)
    ensures AppsOf(SegmentLog(q, cur, len)) == Stamp(Before(q, cur + 1), cur)
    ensures PlaysOf(SegmentLog(q, cur, len)) == [Segment(cur, len)]
  {
    var a, tail := Apps(Before(q, cur + 1), cur), [Fire(cur), Play(cur, len)];
    OfApps(Before(q, cur + 1), cur);
    OfAppend(a, tail);
    assert tail[..|tail| - 1] == [Fire(cur)];
    var one := [Fire(cur)];
    assert one[..|one| - 1] == [];
    assert AppsOf(one) == [] && PlaysOf(one) == [];
    assert AppsOf(tail) == [] && PlaysOf(tail) == [Segment(cur, len)];
  }

  /** The calls are the block's trace and its segments. */
  lemma {:induction false} CallsOf<E>(y: Synth<E>, e: E, q: seq<Event>, cur: nat, limit: nat)
    ensures AppsOf(Calls(y, e, q, cur, limit)) == Render(y, e, q, cur, limit).trace
    ensures PlaysOf(Calls(y, e, q, cur, limit)) == Render(y, e, q, cur, limit).segs
    decreases if cur < limit then limit - cur else 0
  {
    if cur < limit {
      var s := SegStep(y, e, q, cur, limit);
      var len := s.segs[0].len;
      assert s.segs == [Segment(cur, len)];
      OfSegment(q, cur, len);
      OfAppend(SegmentLog(q, cur, len), Calls(y, s.e, s.q, SegEnd(s), limit));
      CallsOf(y, s.e, s.q, SegEnd(s), limit);
    }
  }

  /** They are grouped segment by segment. */
  lemma {:induction false} CallsGrouped<E>(y: Synth<E>, e: E, q: seq<Event>, cur: nat, limit: nat)
    ensures Grouped(Calls(y, e, q, cur, limit), Render(y, e, q, cur, limit).segs)
    decreases if cur < limit then limit - cur else 0
  {
    if cur < limit {
      var s := SegStep(y, e, q, cur, limit);
      var len := s.segs[0].len;
      assert s.segs == [Segment(cur, len)];
      CallsGrouped(y, s.e, s.q, SegEnd(s), limit);
      GroupFirst(q, cur, len, Calls(y, s.e, s.q, SegEnd(s), limit), Render(y, s.e, s.q, SegEnd(s), limit).segs);
    }
  }

  lemma GroupFirst(q: seq<Event>, cur: nat, len: nat, b: seq<Step>, segs: seq<Segment>)
    requires Grouped(b, segs)
    ensures Grouped(SegmentLog(q, cur, len) + b, [Segment(cur, len)] + segs)
  {
    var g, k, p := SegmentLog(q, cur, len), |Before(q, cur + 1)|, Segment(cur, len);
    assert GroupOf(g + b, k, p);
    assert (g + b)[k + 2..] == b && ([p] + segs)[1..] == segs && ([p] + segs)[0] == p;
    assert 0 <= k <= |g + b| - 2 && GroupOf(g + b, k, ([p] + segs)[0]) && Grouped((g + b)[k + 2..], ([p] + segs)[1..]);
  }

  // ---------------- the engine is the fold of the log ----------------

  lemma ReplayedAfter<E>(y: Synth<E>, before: seq<real>, x: (E, seq<real>), s: Step)
    ensures Replayed(y, (x.0, before + x.1), s) == (Replayed(y, x, s).0, before + Replayed(y, x, s).1)
  {
    if s.Play? {
      var r := y.render(x.0, s.pos, s.n);
      assert (before + x.1) + r.1 == before + (x.1 + r.1);
    }
  }

  lemma {:induction false} FoldAppend<E>(y: Synth<E>, e: E, a: seq<Step>, b: seq<Step>)
    ensures var f := Fold(y, e, a);
            var g := Fold(y, f.0, b);
            Fold(y, e, a + b) == (g.0, f.1 + g.1)
  {
    if b == [] {
      assert a + b == a;
      var f := Fold(y, e, a);
      assert Fold(y, f.0, b) == (f.0, []) && f.1 + [] == f.1;
    } else {
      var p, last := b[..|b| - 1], b[|b| - 1];
      assert (a + b)[..|a + b| - 1] == a + p && (a + b)[|a + b| - 1] == last;
      FoldAppend(y, e, a, p);
      var f := Fold(y, e, a);
      ReplayedAfter(y, f.1, Fold(y, f.0, p), last);
    }
  }

  lemma {:induction false} FoldApps<E>(y: Synth<E>, e: E, evs: seq<Event>, pos: nat)
    ensures Fold(y, e, Apps(evs, pos)) == (ApplyAll(y, e, evs, pos), [])
  {
    if evs != [] {
      assert Apps(evs, pos)[..|evs| - 1] == Apps(evs[..|evs| - 1], pos);
      FoldApps(y, e, evs[..|evs| - 1], pos);
    }
  }

  /** What the engine has become when a segment's render call is made. */
  ghost function Served<E>(y: Synth<E>, e: E, q: seq<Event>, cur: nat): E
  {
    y.fire(ApplyAll(y, e, Before(q, cur + 1), cur), cur)
  }

  lemma FoldServed<E>(y: Synth<E>, e: E, q: seq<Event>, cur: nat)
    ensures Fold(y, e, Apps(Before(q, cur + 1), cur) + [Fire(cur)]) == (Served(y, e, q, cur), [])
  {
    var a := Apps(Before(q, cur + 1), cur);
    FoldApps(y, e, Before(q, cur + 1), cur);
    assert (a + [Fire(cur)])[..|a|] == a;
  }

  lemma FoldSegment<E>(y: Synth<E>, e: E, q: seq<Event>, cur: nat, limit: nat)
    requires cur < limit
    ensures var s := SegStep(y, e, q, cur, limit);
            Fold(y, e, SegmentLog(q, cur, s.segs[0].len)) == (s.e, s.audio)
  {
    var s, a := SegStep(y, e, q, cur, limit), Apps(Before(q, cur + 1), cur) + [Fire(cur)];
    var g := SegmentLog(q, cur, s.segs[0].len);
    FoldServed(y, e, q, cur);
    assert g[..|g| - 1] == a && g[|g| - 1] == Play(cur, s.segs[0].len);
    var r := y.render(Served(y, e, q, cur), cur, s.segs[0].len);
    assert s.e == r.0 && s.audio == r.1;
    assert [] + r.1 == r.1;
  }

  /** The engine a block leaves and its audio are the fold of its calls. */
  lemma {:induction false} CallsFolded<E>(y: Synth<E>, e: E, q: seq<Event>, cur: nat, limit: nat)
    ensures var o := Render(y, e, q, cur, limit); Fold(y, e, Calls(y, e, q, cur, limit)) == (o.e, o.audio)
    decreases if cur < limit then limit - cur else 0
  {
    if cur < limit {
      var s := SegStep(y, e, q, cur, limit);
      var len := s.segs[0].len;
      var mid := SegEnd(s);
      var g, rest := SegmentLog(q, cur, len), Calls(y, s.e, s.q, mid, limit);
      FoldSegment(y, e, q, cur, limit);
      CallsFolded(y, s.e, s.q, mid, limit);
      FoldAppend(y, e, g, rest);
      CallsUnfold(y, e, q, cur, limit, s, len, mid, g, rest);
      RenderUnfold(y, e, q, cur, limit, s, mid);
    }
  }

  // ---------------- where segments end ----------------

  lemma {:induction false} ObeysMore<E>(y: Synth<E>, e: E, q: seq<Event>, q': seq<Event>, limit: nat, log: seq<Step>)
    requires Obeys(y, e, q', limit, log) && forall ts :: HasTs(q', ts) ==> HasTs(q, ts)
    ensures Obeys(y, e, q, limit, log)
  {
    if log != [] {
      ObeysMore(y, e, q, q', limit, log[..|log| - 1]);
    }
  }

  lemma {:induction false} ObeysAppend<E>(y: Synth<E>, e: E, q: seq<Event>, limit: nat, a: seq<Step>, b: seq<Step>)
    requires Obeys(y, e, q, limit, a) && Obeys(y, Fold(y, e, a).0, q, limit, b)
    ensures Obeys(y, e, q, limit, a + b)
  {
    if b == [] {
      assert a + b == a;
    } else {
      var p := b[..|b| - 1];
      ObeysAppend(y, e, q, limit, a, p);
      FoldAppend(y, e, a, p);
      assert (a + b)[..|a + b| - 1] == a + p && (a + b)[|a + b| - 1] == b[|b| - 1];
    }
  }

  lemma {:induction false} FromHas(q: seq<Event>, cur: nat, ts: nat)
    requires HasTs(From(q, cur), ts)
    ensures HasTs(q, ts)
  {
    var p, last := q[..|q| - 1], q[|q| - 1];
    var i :| 0 <= i < |From(q, cur)| && From(q, cur)[i].ts == ts;
    if i < |From(p, cur)| {
      assert From(p, cur)[i].ts == ts;
      FromHas(p, cur, ts);
      var j :| 0 <= j < |p| && p[j].ts == ts;
      assert q[j].ts == ts;
    } else {
      assert last.ts == ts;
    }
  }

  lemma FromHasAll(q: seq<Event>, cur: nat)
    ensures forall ts :: HasTs(From(q, cur), ts) ==> HasTs(q, ts)
  {
    forall ts | HasTs(From(q, cur), ts) ensures HasTs(q, ts) {
      FromHas(q, cur, ts);
    }
  }

  lemma {:induction false} NextHas(q: seq<Event>, limit: nat)
    requires NextTs(q, limit) != 0
    ensures HasTs(q, NextTs(q, limit))
  {
    var p, last := q[..|q| - 1], q[|q| - 1];
    if NextTs(q, limit) != last.ts {
      NextHas(p, limit);
      var j :| 0 <= j < |p| && p[j].ts == NextTs(q, limit);
      assert q[j].ts == NextTs(q, limit);
    }
  }

  /** Within one turn of the 32-bit difference the segment ends at its stop, or with the block. */
  lemma SegLenExact(next: nat, cur: nat, limit: nat)
    requires cur < limit < cur + WORD && (next == 0 || cur < next < cur + WORD)
    ensures cur + SegLen(next, cur, limit) == if next == 0 || limit < next then limit else next
  {
  }

  lemma SegmentStops<E(!new)>(y: Synth<E>, e: E, q: seq<Event>, cur: nat, limit: nat)
    requires Sound(y) && cur < limit
    ensures PlayStops(y, Served(y, e, q, cur), q, limit, cur, SegStep(y, e, q, cur, limit).segs[0].len)
  {
    var next, d := NextTs(From(q, cur + 1), limit), y.deadline(Served(y, e, q, cur), cur);
    var stop := Earlier(next, d);
    NextTsIsMin(q, cur, limit);
    SegLenShort(stop, cur, limit);
    if limit < cur + WORD && d < cur + WORD {
      SegLenExact(stop, cur, limit);
      if stop != 0 && stop <= limit && stop != d {
        NextHas(From(q, cur + 1), limit);
        FromHas(q, cur + 1, stop);
      }
    }
  }

  lemma {:induction false} NoPlayObeys<E>(y: Synth<E>, e: E, q: seq<Event>, limit: nat, a: seq<Step>)
    requires forall i :: 0 <= i < |a| ==> !a[i].Play?
    ensures Obeys(y, e, q, limit, a)
  {
    if a != [] {
      NoPlayObeys(y, e, q, limit, a[..|a| - 1]);
    }
  }

  lemma OnePlayObeys<E>(y: Synth<E>, e: E, q: seq<Event>, limit: nat, a: seq<Step>, pos: nat, n: nat)
    requires (forall i :: 0 <= i < |a| ==> !a[i].Play?) && PlayStops(y, Fold(y, e, a).0, q, limit, pos, n)
    ensures Obeys(y, e, q, limit, a + [Play(pos, n)])
  {
    var g := a + [Play(pos, n)];
    NoPlayObeys(y, e, q, limit, a);
    assert g[..|g| - 1] == a;
  }

  lemma SegmentObeys<E(!new)>(y: Synth<E>, e: E, q: seq<Event>, cur: nat, limit: nat)
    requires Sound(y) && cur < limit
    ensures Obeys(y, e, q, limit, SegmentLog(q, cur, SegStep(y, e, q, cur, limit).segs[0].len))
  {
    var len, a := SegStep(y, e, q, cur, limit).segs[0].len, Apps(Before(q, cur + 1), cur) + [Fire(cur)];
    SegmentStops(y, e, q, cur, limit);
    FoldServed(y, e, q, cur);
    OnePlayObeys(y, e, q, limit, a, cur, len);
    assert SegmentLog(q, cur, len) == a + [Play(cur, len)];
  }

  lemma ObeysFirst<E(!new)>(y: Synth<E>, e: E, q: seq<Event>, cur: nat, limit: nat, s: Out<E>, g: seq<Step>,
        b: seq<Step>)
    requires Sound(y) && cur < limit && s == SegStep(y, e, q, cur, limit) && Obeys(y, s.e, s.q, limit, b)
    requires g == SegmentLog(q, cur, s.segs[0].len)
    ensures Obeys(y, e, q, limit, g + b)
  {
    SegmentObeys(y, e, q, cur, limit);
    FoldSegment(y, e, q, cur, limit);
    FromHasAll(q, cur + 1);
    ObeysMore(y, s.e, q, s.q, limit, b);
    ObeysAppend(y, e, q, limit, g, b);
  }

  lemma NoCalls<E>(y: Synth<E>, e: E, q: seq<Event>, cur: nat, limit: nat)
    requires cur >= limit
    ensures Obeys(y, e, q, limit, Calls(y, e, q, cur, limit))
  {
  }

  lemma {:induction false} CallsObey<E(!new)>(y: Synth<E>, e: E, q: seq<Event>, cur: nat, limit: nat)
    requires Sound(y)
    ensures Obeys(y, e, q, limit, Calls(y, e, q, cur, limit))
    decreases if cur < limit then limit - cur else 0
  {
    if cur < limit {
      var s := SegStep(y, e, q, cur, limit);
      var len := s.segs[0].len;
      var mid := SegEnd(s);
      var g, rest := SegmentLog(q, cur, len), Calls(y, s.e, s.q, mid, limit);
      CallsObey(y, s.e, s.q, mid, limit);
      CallsUnfold(y, e, q, cur, limit, s, len, mid, g, rest);
      ObeysFirst(y, e, q, cur, limit, s, g, rest);
    } else {
      NoCalls(y, e, q, cur, limit);
    }
  }

  // ---------------- the theorem ----------------

  lemma LogIsCalls<E>(y: Synth<E>, e: E, q: seq<Event>, cur: nat, limit: nat)
    ensures BlockLog(y, e, q, cur, limit) == Calls(y, e, q, cur, limit)
  {
    RenderLogs(y, e, [], q, cur, limit);
    assert [] + Calls(y, e, q, cur, limit) == Calls(y, e, q, cur, limit);
  }

  /** The calls a block makes are the scheduled applications, and for the segments that tile the block one
      service call and one render call each, after the applications at that position. */
  lemma LogIsScheduled<E(!new)>(y: Synth<E>, e: E, q: seq<Event>, pos: nat, limit: nat)
    requires Sound(y) && pos < limit
    ensures var log := BlockLog(y, e, q, pos, limit);
            && AppsOf(log) == Schedule(q, pos, limit)
            && Tiles(PlaysOf(log), pos, limit)
            && Grouped(log, PlaysOf(log))
  {
    LogIsCalls(y, e, q, pos, limit);
    CallsOf(y, e, q, pos, limit);
    CallsGrouped(y, e, q, pos, limit);
    assert AppsOf(BlockLog(y, e, q, pos, limit)) == Schedule(q, pos, limit) by { RenderTrace(y, e, q, pos, limit); }
    assert Tiles(PlaysOf(BlockLog(y, e, q, pos, limit)), pos, limit) by { RenderTiles(y, e, q, pos, limit); }
  }

  /** For every engine, the state a block leaves and the audio it returns are the fold of those calls, and
      every render call ends exactly where it must: with the block, at the next queued timestamp or at the
      deadline the engine reports when the call is made. */
  lemma LogIsMeaning<E(!new)>(y: Synth<E>, e: E, q: seq<Event>, pos: nat, limit: nat)
    requires Sound(y)
    ensures var o, log := Render(y, e, q, pos, limit), BlockLog(y, e, q, pos, limit);
            Fold(y, e, log) == (o.e, o.audio) && Obeys(y, e, q, limit, log)
  {
    LogIsCalls(y, e, q, pos, limit);
    CallsFolded(y, e, q, pos, limit);
    CallsObey(y, e, q, pos, limit);
  }
}
