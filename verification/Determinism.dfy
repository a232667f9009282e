/** Fenced rendering is deterministic: whatever the interleaving of the two threads, a stream whose
    fences name every message stamped before the end of their range, and that neither drops nor
    expires anything, renders what a single thread would that first consumed every message. */
module Determinism {
  import opened Events
  import opened Segments
  import opened EventQueue
  import opened Session
  import opened EventPlane

  // ---------------- blocks and their events ----------------

  function Flatten(bs: seq<Block>): seq<Event>
  {
    if bs == [] then [] else Flatten(bs[..|bs| - 1]) + bs[|bs| - 1]
  }

  ghost predicate BlocksFrom(bs: seq<Block>, limit: nat)
  {
    forall i :: 0 <= i < |bs| ==> NoneBefore(bs[i], limit)
  }

  lemma {:induction false} FlattenAppend(a: seq<Block>, b: seq<Block>)
    ensures Flatten(a + b) == Flatten(a) + Flatten(b)
  {
    if b == [] {
      assert a + b == a;
    } else {
      assert (a + b)[..|a + b| - 1] == a + b[..|b| - 1];
      FlattenAppend(a, b[..|b| - 1]);
    }
  }

  lemma {:induction false} FlattenSingles(evs: seq<Event>)
    ensures Flatten(Singles(evs)) == evs
  {
    if evs != [] {
      assert Singles(evs)[..|evs| - 1] == Singles(evs[..|evs| - 1]);
      FlattenSingles(evs[..|evs| - 1]);
    }
  }

  lemma FlattenOne(b: Block)
    ensures Flatten([b]) == b
  {
    assert [b][..0] == [];
  }

  lemma {:induction false} FlattenFrom(bs: seq<Block>, limit: nat)
    requires BlocksFrom(bs, limit)
    ensures NoneBefore(Flatten(bs), limit)
  {
    if bs != [] {
      FlattenFrom(bs[..|bs| - 1], limit);
    }
  }

  // ---------------- the reference ----------------

  ghost function AllBlocks<E>(c: Script<E>): seq<Block>
  {
    SpecBlocks(c.msgs, |c.msgs|)
  }

  datatype RefState<E> = RefState(e: E, q: seq<Event>, cursor: nat, outs: seq<FrameOut>)

  /** One more frame: discarded when it rewinds, otherwise `whole` is its rendered range. */
  ghost function RefNext<E>(r: RefState<E>, f: Frame, whole: Out<E>): RefState<E>
  {
    if f.ts < r.cursor then r.(outs := r.outs + [Skipped])
    else RefState(whole.e, whole.q, End(f), r.outs + [Played(whole.trace, whole.audio, whole.late)])
  }

  /** What the reference needs to know: the whole message stream's blocks, the initial engine, the
      frames, and the renderer as a value. */
  datatype View<!E> = View(all: seq<Block>, e0: E, frames: seq<Frame>, rend: (E, seq<Event>, nat, nat) -> Out<E>)

  ghost function Renderer<E>(y: Synth<E>): (E, seq<Event>, nat, nat) -> Out<E>
  {
    (e: E, q: seq<Event>, cur: nat, limit: nat) => Render(y, e, q, cur, limit)
  }

  ghost function ViewOf<E>(c: Script<E>): View<E>
  {
    View(AllBlocks(c), c.e0, c.frames, Renderer(c.y))
  }

  /** The first `k` frames rendered by one thread, with the events of every message already queued. */
  ghost function Ref<E>(v: View<E>, k: nat): RefState<E>
    requires k <= |v.frames|
  {
    if k == 0 then RefState(v.e0, Flatten(v.all), 0, [])
    else
      var r, f := Ref(v, k - 1), v.frames[k - 1];
      RefNext(r, f, v.rend(r.e, r.q, f.ts, End(f)))
  }

  /** The reference's render of frame `k`. */
  ghost function Whole<E>(v: View<E>, k: nat): Out<E>
    requires k < |v.frames|
  {
    v.rend(Ref(v, k).e, Ref(v, k).q, v.frames[k].ts, End(v.frames[k]))
  }

  /** Every frame is non-empty and fenced, and the messages its fence does not name stamp their
      events at the end of its range or later. */
  ghost predicate WellFenced<E>(c: Script<E>)
  {
    forall k :: 0 <= k < |c.frames| ==> FenceNames(c.msgs, c.frames[k])
  }

  ghost predicate FenceNames(msgs: seq<Msg>, f: Frame)
  {
    f.n > 0 && f.fenced && f.want <= |msgs| && LaterFrom(msgs, f.want, End(f))
  }

  ghost predicate LaterFrom(msgs: seq<Msg>, want: nat, limit: nat)
  {
    forall j :: want <= j < |msgs| ==> EmitsFrom(msgs, j, limit)
  }

  /** What message `j` hands over is stamped at `limit` or later. */
  ghost predicate EmitsFrom(msgs: seq<Msg>, j: nat, limit: nat)
    requires j < |msgs|
  {
    BlocksFrom(Emitted(SpecTxns(msgs, j), msgs[j]), limit)
  }

  lemma BlocksFromConcat(p: seq<Block>, x: seq<Block>, w: nat, limit: nat)
    requires w <= |p| && BlocksFrom(p[w..], limit) && BlocksFrom(x, limit)
    ensures BlocksFrom((p + x)[w..], limit)
  {
    assert (p + x)[w..] == p[w..] + x;
  }

  lemma TailNext(msgs: seq<Msg>, want: nat, p: nat, k: nat, limit: nat, w: seq<Block>)
    requires want <= p && k == p + 1 <= |msgs| && LaterFrom(msgs, want, limit)
    requires w <= SpecBlocks(msgs, p) && BlocksFrom(SpecBlocks(msgs, p)[|w|..], limit)
    ensures w <= SpecBlocks(msgs, k) && BlocksFrom(SpecBlocks(msgs, k)[|w|..], limit)
  {
    var b, x := SpecBlocks(msgs, p), Emitted(SpecTxns(msgs, p), msgs[p]);
    assert SpecBlocks(msgs, k) == b + x;
    assert EmitsFrom(msgs, p, limit);
    BlocksFromConcat(b, x, |w|, limit);
  }

  lemma {:induction false} TailFrom(msgs: seq<Msg>, want: nat, k: nat, limit: nat)
    requires want <= k <= |msgs| && LaterFrom(msgs, want, limit)
    ensures SpecBlocks(msgs, want) <= SpecBlocks(msgs, k)
    ensures BlocksFrom(SpecBlocks(msgs, k)[|SpecBlocks(msgs, want)|..], limit)
    decreases k
  {
    if want < k {
      TailFrom(msgs, want, k - 1, limit);
      TailNext(msgs, want, k - 1, k, limit, SpecBlocks(msgs, want));
    }
  }

  // ---------------- the invariant ----------------

  ghost function Empty<E>(e: E): Out<E>
  {
    Out(e, [], [], [], [], 0, 0)
  }

  /** What has not been handed over yet lies at `limit` or later. */
  ghost predicate RestFrom(all: seq<Block>, handed: seq<Block>, limit: nat)
  {
    handed <= all && BlocksFrom(all[|handed|..], limit)
  }

  /** Up to where the queue has been emptied. */
  ghost function Horizon<E>(au: Audio<E>): nat
  {
    if au.phase.Busy? && au.phase.pos < au.phase.cur then au.phase.cur else au.cursor
  }

  /** Up to where the audio thread has been let through. */
  ghost function Bound<E>(au: Audio<E>): nat
  {
    if au.phase.Busy? then au.phase.limit else au.cursor
  }

  /** The frame in progress, completed with the live queue, is the reference's frame. */
  ghost predicate Continues<E>(v: View<E>, b: Phase<E>, queue: seq<Event>, whole: Out<E>)
    requires b.Busy?
  {
    SameRender(Join(b.part, v.rend(b.part.e, queue, b.cur, b.limit)), whole)
  }

  ghost predicate FrameOk<E>(v: View<E>, f: Frame, cursor: nat, b: Phase<E>, queue: seq<Event>, whole: Out<E>)
    requires b.Busy?
  {
    cursor <= f.ts && b.pos == f.ts && b.limit == End(f) && f.ts <= b.cur <= b.limit && Continues(v, b, queue, whole)
  }

  ghost predicate AudioOk<E>(v: View<E>, au: Audio<E>, queue: seq<Event>)
  {
    var k := |au.outs|;
    && k <= |v.frames|
    && au.outs == Ref(v, k).outs && au.cursor == Ref(v, k).cursor && au.e == Ref(v, k).e
    && (au.phase.Busy? ==> k < |v.frames| && FrameOk(v, v.frames[k], au.cursor, au.phase, queue, Whole(v, k)))
  }

  ghost predicate Inv<E>(v: View<E>, s: Plane<E>)
  {
    && |s.queue| <= QUEUE_CAP
    && s.accepted == s.handed
    && RestFrom(v.all, s.handed, Bound(s.au))
    && s.queue == From(Flatten(s.handed), Horizon(s.au))
    && AudioOk(v, s.au, s.queue)
  }

  ghost predicate SesInv<E>(c: Script<E>, s: Plane<E>)
  {
    Tracks(c.msgs, s.ses, s.handed, s.counted)
  }

  // ---------------- session moves ----------------

  /** Handing over blocks that lie past the bound extends the queue and disturbs nothing before it. */
  lemma QueueGrows(all: seq<Block>, handed: seq<Block>, new_: seq<Block>, horizon: nat, bound: nat)
    requires horizon <= bound && RestFrom(all, handed, bound) && handed + new_ <= all
    ensures RestFrom(all, handed + new_, bound)
    ensures From(Flatten(handed + new_), horizon) == From(Flatten(handed), horizon) + Flatten(new_)
    ensures Before(From(Flatten(handed), horizon) + Flatten(new_), bound) == Before(From(Flatten(handed), horizon), bound)
  {
    var h := |handed|;
    assert forall i :: 0 <= i < |new_| ==> new_[i] == all[h..][i];
    assert all[h + |new_|..] == all[h..][|new_|..];
    FlattenFrom(new_, bound);
    FlattenAppend(handed, new_);
    var q, x := From(Flatten(handed), horizon), Flatten(new_);
    SplitAppend(Flatten(handed), x, horizon);
    FromAll(x, horizon);
    FromAll(x, bound);
    SplitAppend(q, x, bound);
    assert Before(q, bound) + [] == Before(q, bound);
  }

  lemma ContinuesLocal<E>(y: Synth<E>, v: View<E>, b: Phase<E>, q: seq<Event>, q': seq<Event>, whole: Out<E>)
    requires v.rend == Renderer(y) && b.Busy? && Continues(v, b, q, whole) && Before(q, b.limit) == Before(q', b.limit)
    ensures Continues(v, b, q', whole)
  {
    RenderLocal(y, b.part.e, q, q', b.cur, b.limit);
  }

  lemma PerformClean<E>(s: Plane<E>, a: Action)
    requires |s.queue| <= QUEUE_CAP
    ensures var s' := Perform(s, a);
            s'.drops == 0 && s'.signals == 0 ==>
              && s.drops == 0 && s.signals == 0 && |s'.queue| <= QUEUE_CAP
              && s'.queue == s.queue + Flatten(Handed(a)) && s'.accepted == s.accepted + Handed(a)
  {
    match a {
      case Run(evs) =>
        PushEachKeepsPrefix(s.queue, evs);
        FlattenSingles(evs);
      case Batch(evs) => FlattenOne(evs);
      case One(ev) => FlattenOne([ev]);
      case OneUnlessFull(ev) => FlattenOne([ev]);
      case _ =>
        assert s.queue + Flatten([]) == s.queue;
        assert s.accepted + [] == s.accepted;
    }
  }

  lemma DoActClean<E>(s: Plane<E>)
    requires s.ses.todo != [] && |s.queue| <= QUEUE_CAP && s.accepted == s.handed && Clean(DoAct(s))
    ensures var a, s' := s.ses.todo[0], DoAct(s);
            && s'.au == s.au && s'.handed == s.handed + Handed(a)
            && s'.accepted == s'.handed && s'.queue == s.queue + Flatten(Handed(a)) && |s'.queue| <= QUEUE_CAP
  {
    PerformClean(s, s.ses.todo[0]);
  }

  /** `s'` has handed over the blocks `new_` and queued their events; its audio side is that of `s`. */
  lemma GrowInv<E>(y: Synth<E>, v: View<E>, s: Plane<E>, s': Plane<E>, new_: seq<Block>)
    requires v.rend == Renderer(y) && Inv(v, s) && s'.au == s.au && |s'.queue| <= QUEUE_CAP
    requires s'.handed == s.handed + new_ && s'.accepted == s'.handed && s'.queue == s.queue + Flatten(new_)
    requires s'.handed <= v.all
    ensures Inv(v, s')
  {
    QueueGrows(v.all, s.handed, new_, Horizon(s.au), Bound(s.au));
    if s.au.phase.Busy? {
      ContinuesLocal(y, v, s.au.phase, s.queue, s'.queue, Whole(v, |s.au.outs|));
    }
  }

  lemma ActInv<E>(c: Script<E>, v: View<E>, s: Plane<E>)
    requires v.rend == Renderer(c.y) && v.all == AllBlocks(c)
    requires Inv(v, s) && SesInv(c, s) && s.ses.todo != [] && Clean(DoAct(s))
    ensures Inv(v, DoAct(s))
  {
    ActSes(c, s);
    HandedWithin(c, DoAct(s));
    DoActClean(s);
    GrowInv(c.y, v, s, DoAct(s), Handed(s.ses.todo[0]));
  }

  lemma ActSes<E>(c: Script<E>, s: Plane<E>)
    requires SesInv(c, s) && s.ses.todo != []
    ensures SesInv(c, DoAct(s))
  {
    ActionTracks(c.msgs, s.ses, s.handed, s.counted);
  }

  /** Everything handed over so far is a prefix of what the whole message stream hands over. */
  lemma HandedWithin<E>(c: Script<E>, s: Plane<E>)
    requires SesInv(c, s)
    ensures s.handed <= AllBlocks(c)
  {
    OwesPrefix(c.msgs, s.ses.todo, s.handed, s.counted, s.ses.stage, s.ses.m);
    SpecGrows(c.msgs, s.ses.m, |c.msgs|);
  }

  lemma {:induction false} OwesPrefix(msgs: seq<Msg>, todo: seq<Action>, handed: seq<Block>, counted: nat,
        stage: seq<Event>, m: nat)
    requires m <= |msgs| && Owes(msgs, todo, handed, counted, stage, m)
    ensures handed <= SpecBlocks(msgs, m)
    decreases |todo|
  {
    if todo != [] {
      OwesPrefix(msgs, todo[1..], handed + Handed(todo[0]), Tally(counted, todo[0]), stage, m);
    }
  }

  // ---------------- audio moves ----------------

  /** Past an offline fence, or a real-time one that did not expire, the named messages are counted. */
  lemma PassCounted<E>(c: Script<E>, f: Frame, counted: nat, now: nat, deadline: nat)
    requires f.fenced && InWindow(f.want, counted) && !Blocked(c, f, counted, now, deadline)
    requires !CountTimeout(Pending(f.want, counted), true, c.offline)
    ensures f.want <= counted
  {
    PendingIsDifference(f.want, counted);
  }

  lemma FencedRest<E>(c: Script<E>, s: Plane<E>, want: nat, limit: nat)
    requires SesInv(c, s) && want <= s.counted && LaterFrom(c.msgs, want, limit)
    ensures RestFrom(AllBlocks(c), s.handed, limit)
  {
    var all, w, h := AllBlocks(c), |SpecBlocks(c.msgs, want)|, |s.handed|;
    HandedWithin(c, s);
    SpecGrows(c.msgs, want, s.counted);
    TailFrom(c.msgs, want, |c.msgs|, limit);
    assert all[h..] == all[w..][h - w..];
  }

  lemma RestIsLater(handed: seq<Block>, rest: seq<Block>, cursor: nat, limit: nat)
    requires cursor <= limit && BlocksFrom(rest, limit)
    ensures Before(From(Flatten(handed), cursor), limit) == Before(From(Flatten(handed + rest), cursor), limit)
  {
    var h, x := Flatten(handed), Flatten(rest);
    FlattenAppend(handed, rest);
    FlattenFrom(rest, limit);
    SplitAppend(h, x, cursor);
    FromAll(x, cursor);
    FromAll(x, limit);
    SplitAppend(From(h, cursor), x, limit);
    assert Before(From(h, cursor), limit) + [] == Before(From(h, cursor), limit);
  }

  /** A frame let through by its fence finds every event of its range in the queue. */
  lemma PassSees(all: seq<Block>, handed: seq<Block>, cursor: nat, limit: nat)
    requires cursor <= limit && RestFrom(all, handed, limit)
    ensures Before(From(Flatten(handed), cursor), limit) == Before(From(Flatten(all), cursor), limit)
  {
    assert all == handed + all[|handed|..];
    RestIsLater(handed, all[|handed|..], cursor, limit);
  }

  lemma StartFrame<E>(y: Synth<E>, v: View<E>, b: Phase<E>, queue: seq<Event>, r: RefState<E>, whole: Out<E>)
    requires v.rend == Renderer(y) && b.Busy? && b.part == Empty(r.e) && whole == v.rend(r.e, r.q, b.cur, b.limit)
    requires Before(queue, b.limit) == Before(r.q, b.limit)
    ensures Continues(v, b, queue, whole)
  {
    RenderLocal(y, r.e, queue, r.q, b.cur, b.limit);
  }

  /** The next frame was discarded. */
  lemma SkippedInv<E>(v: View<E>, s: Plane<E>, s': Plane<E>)
    requires Inv(v, s) && s.au.phase.Idle? && |s.au.outs| < |v.frames|
    requires v.frames[|s.au.outs|].ts < s.au.cursor
    requires s' == s.(au := s'.au) && s'.au.phase.Idle? && s'.au.outs == s.au.outs + [Skipped]
    requires s'.au.cursor == s.au.cursor && s'.au.e == s.au.e
    ensures Inv(v, s')
  {
    var k := |s.au.outs|;
    assert Ref(v, k + 1) == RefNext(Ref(v, k), v.frames[k], Whole(v, k));
  }

  /** The next frame's range was started. */
  lemma StartedInv<E>(v: View<E>, s: Plane<E>, s': Plane<E>)
    requires Inv(v, s) && s.au.phase.Idle? && |s.au.outs| < |v.frames|
    requires s' == s.(au := s'.au) && s'.au.outs == s.au.outs && s'.au.cursor == s.au.cursor && s'.au.e == s.au.e
    requires s'.au.phase.Busy? && s'.au.phase.pos == s'.au.phase.cur
    requires RestFrom(v.all, s.handed, s'.au.phase.limit)
    requires var k := |s.au.outs|; FrameOk(v, v.frames[k], s.au.cursor, s'.au.phase, s.queue, Whole(v, k))
    ensures Inv(v, s')
  {
  }

  lemma PassInv<E(!new)>(c: Script<E>, v: View<E>, s: Plane<E>, f: Frame, now: nat, deadline: nat)
    requires v == ViewOf(c) && Drains(v.rend)
    requires Inv(v, s) && SesInv(c, s) && s.au.phase.Idle? && |s.au.outs| < |c.frames|
    requires f == c.frames[|s.au.outs|] && WellFenced(c) && !Blocked(c, f, s.counted, now, deadline)
    requires Clean(DoPass(c, s, f))
    ensures Inv(v, DoPass(c, s, f))
  {
    var s' := DoPass(c, s, f);
    if f.ts < s.au.cursor {
      SkippedInv(v, s, s');
    } else {
      assert FenceNames(c.msgs, f);
      PassCounted(c, f, s.counted, now, deadline);
      FencedRest(c, s, f.want, End(f));
      PassStarts(c.y, v, s, s', f, End(f));
    }
  }

  lemma PassStarts<E(!new)>(y: Synth<E>, v: View<E>, s: Plane<E>, s': Plane<E>, f: Frame, limit: nat)
    requires v.rend == Renderer(y) && Drains(v.rend) && NonEmpty(v.frames)
    requires Inv(v, s) && s.au.phase.Idle? && |s.au.outs| < |v.frames| && f == v.frames[|s.au.outs|]
    requires limit == End(f) && s.au.cursor <= f.ts && RestFrom(v.all, s.handed, limit)
    requires s' == s.(au := s'.au) && s'.au.outs == s.au.outs && s'.au.cursor == s.au.cursor && s'.au.e == s.au.e
    requires s'.au.phase == Busy(f.ts, f.ts, limit, Empty(s.au.e))
    ensures Inv(v, s')
  {
    var k, cursor := |s.au.outs|, s.au.cursor;
    PassSees(v.all, s.handed, cursor, limit);
    RefQueue(v, k);
    StartFrame(y, v, s'.au.phase, s.queue, Ref(v, k), Whole(v, k));
    StartedInv(v, s, s');
  }

  lemma DrawContinues<E>(y: Synth<E>, v: View<E>, b: Phase<E>, queue: seq<Event>, whole: Out<E>, seg: Out<E>,
        b': Phase<E>)
    requires v.rend == Renderer(y) && b.Busy? && b.cur < b.limit && Continues(v, b, queue, whole)
    requires seg == SegStep(y, b.part.e, queue, b.cur, b.limit)
    requires b' == b.(cur := SegEnd(seg), part := Join(b.part, seg))
    ensures Continues(v, b', seg.q, whole)
  {
    var rest := Render(y, seg.e, seg.q, b'.cur, b'.limit);
    RenderUnfold(y, b.part.e, queue, b.cur, b.limit, seg, b'.cur);
    JoinAssoc(b.part, seg, rest);
  }

  lemma DrawQueue(all: seq<Event>, horizon: nat, cur: nat, cur': nat, q': seq<Event>)
    requires horizon <= cur < cur' && q' == From(From(all, horizon), cur + 1) && NoneBefore(q', cur')
    ensures q' == From(all, cur')
  {
    Nested(all, horizon, cur + 1);
    Nested(all, cur + 1, cur');
    FromAll(q', cur');
  }

  lemma FromShrinks(q: seq<Event>, limit: nat)
    ensures |From(q, limit)| <= |q|
  {
    FromBound(q, limit);
    assert |q| == |multiset(q)| && |From(q, limit)| == |multiset(From(q, limit))|;
  }

  /** A segment was rendered: only the frame in progress and the queue moved on. */
  lemma DrawnInv<E>(v: View<E>, s: Plane<E>, s': Plane<E>, b': Phase<E>)
    requires Inv(v, s) && s.au.phase.Busy? && b'.Busy?
    requires b'.pos == s.au.phase.pos && b'.limit == s.au.phase.limit && s.au.phase.cur < b'.cur <= b'.limit
    requires s' == s.(queue := s'.queue, au := s.au.(phase := b', history := s'.au.history))
    requires |s'.queue| <= QUEUE_CAP && s'.queue == From(Flatten(s.handed), b'.cur)
    requires Continues(v, b', s'.queue, Whole(v, |s.au.outs|))
    ensures Inv(v, s')
  {
  }

  lemma DrawInv<E(!new)>(c: Script<E>, v: View<E>, s: Plane<E>)
    requires Sound(c.y) && v.rend == Renderer(c.y)
    requires Inv(v, s) && s.au.phase.Busy? && s.au.phase.cur < s.au.phase.limit
    ensures Inv(v, DoDraw(c, s))
  {
    var b := s.au.phase;
    var seg := SegStep(c.y, b.part.e, s.queue, b.cur, b.limit);
    SegStopsAtEvents(c.y, b.part.e, s.queue, b.cur, b.limit);
    DrawnBy(c.y, v, s, seg, DoDraw(c, s));
  }

  lemma DrawnBy<E>(y: Synth<E>, v: View<E>, s: Plane<E>, seg: Out<E>, s': Plane<E>)
    requires v.rend == Renderer(y) && Inv(v, s) && s.au.phase.Busy? && s.au.phase.cur < s.au.phase.limit
    requires seg == SegStep(y, s.au.phase.part.e, s.queue, s.au.phase.cur, s.au.phase.limit)
    requires NoneBefore(seg.q, SegEnd(seg))
    requires s'.au.phase == s.au.phase.(cur := SegEnd(seg), part := Join(s.au.phase.part, seg))
    requires s' == s.(queue := seg.q, au := s.au.(phase := s'.au.phase, history := s'.au.history))
    ensures Inv(v, s')
  {
    var b := s'.au.phase;
    DrawContinues(y, v, s.au.phase, s.queue, Whole(v, |s.au.outs|), seg, b);
    DrawnQueue(v, s, seg, b.cur);
    DrawnInv(v, s, s', b);
  }

  lemma DrawnQueue<E>(v: View<E>, s: Plane<E>, seg: Out<E>, cur': nat)
    requires Inv(v, s) && s.au.phase.Busy? && s.au.phase.cur < cur'
    requires seg.q == From(s.queue, s.au.phase.cur + 1) && NoneBefore(seg.q, cur')
    ensures |seg.q| <= QUEUE_CAP && seg.q == From(Flatten(s.handed), cur')
  {
    DrawQueue(Flatten(s.handed), Horizon(s.au), s.au.phase.cur, cur', seg.q);
    FromShrinks(s.queue, s.au.phase.cur + 1);
  }

  lemma FinishMatches<E>(y: Synth<E>, v: View<E>, b: Phase<E>, queue: seq<Event>, whole: Out<E>)
    requires v.rend == Renderer(y) && b.Busy? && b.cur >= b.limit && Continues(v, b, queue, whole)
    ensures b.part.e == whole.e && b.part.trace == whole.trace && b.part.audio == whole.audio && b.part.late == whole.late
  {
  }

  lemma FinishInv<E>(y: Synth<E>, v: View<E>, s: Plane<E>)
    requires v.rend == Renderer(y) && NonEmpty(v.frames)
    requires Inv(v, s) && s.au.phase.Busy? && s.au.phase.cur >= s.au.phase.limit
    ensures Inv(v, DoFinish(s))
  {
    var b, k := s.au.phase, |s.au.outs|;
    assert v.frames[k].n > 0;
    FinishMatches(y, v, b, s.queue, Whole(v, k));
    assert Ref(v, k + 1) == RefNext(Ref(v, k), v.frames[k], Whole(v, k));
    assert Horizon(s.au) == b.limit;
  }

  // ---------------- every schedule ----------------

  ghost predicate NonEmpty(frames: seq<Frame>)
  {
    forall k :: 0 <= k < |frames| ==> frames[k].n > 0
  }

  /** A rendered range leaves exactly the events stamped at its end or later. */
  ghost predicate Drains<E(!new)>(rend: (E, seq<Event>, nat, nat) -> Out<E>)
  {
    forall e: E, q: seq<Event>, cur: nat, limit: nat :: cur < limit ==> rend(e, q, cur, limit).q == From(q, limit)
  }

  lemma RendererDrains<E(!new)>(y: Synth<E>)
    requires Sound(y)
    ensures Drains(Renderer(y))
  {
    forall e: E, q: seq<Event>, cur: nat, limit: nat | cur < limit ensures Renderer(y)(e, q, cur, limit).q == From(q, limit) {
      RenderTrace(y, e, q, cur, limit);
    }
  }

  lemma {:induction false} RefQueue<E(!new)>(v: View<E>, k: nat)
    requires Drains(v.rend) && NonEmpty(v.frames) && k <= |v.frames|
    ensures Ref(v, k).q == From(Flatten(v.all), Ref(v, k).cursor)
    ensures |Ref(v, k).outs| == k
  {
    var all := Flatten(v.all);
    if k == 0 {
      FromAll(all, 0);
    } else {
      RefQueue(v, k - 1);
      var r, f := Ref(v, k - 1), v.frames[k - 1];
      var limit := End(f);
      if r.cursor <= f.ts {
        Nested(all, r.cursor, limit);
        assert v.rend(r.e, r.q, f.ts, limit).q == From(r.q, limit);
        assert Ref(v, k).cursor == limit;
      }
    }
  }

  lemma StartInv<E>(c: Script<E>)
    ensures Inv(ViewOf(c), Start(c)) && SesInv(c, Start(c))
  {
    assert [] + Singles([]) == SpecBlocks(c.msgs, 0);
  }

  lemma SesNext<E>(c: Script<E>, s: Plane<E>, mv: Move)
    requires SesInv(c, s)
    ensures SesInv(c, Next(c, s, mv))
  {
    match mv {
      case Consume => if s.ses.todo == [] && s.ses.m < |c.msgs| { HandleTracks(c.msgs, s.ses, s.handed, s.counted); }
      case FlushRun => if s.ses.todo == [] { FlushTracks(c.msgs, s.ses, s.handed, s.counted); }
      case Act => if s.ses.todo != [] { ActSes(c, s); }
      case _ =>
    }
  }

  lemma NextInv<E(!new)>(c: Script<E>, v: View<E>, s: Plane<E>, mv: Move)
    requires Sound(c.y) && WellFenced(c) && v == ViewOf(c) && Drains(v.rend) && NonEmpty(v.frames)
    requires Inv(v, s) && SesInv(c, s) && Clean(Next(c, s, mv))
    ensures Inv(v, Next(c, s, mv))
  {
    match mv {
      case Act => if s.ses.todo != [] { ActInv(c, v, s); }
      case Pass(now, deadline) =>
        if s.au.phase.Idle? && |s.au.outs| < |c.frames| && !Blocked(c, c.frames[|s.au.outs|], s.counted, now, deadline) {
          PassInv(c, v, s, c.frames[|s.au.outs|], now, deadline);
        }
      case Draw => if s.au.phase.Busy? && s.au.phase.cur < s.au.phase.limit { DrawInv(c, v, s); }
      case Finish => if s.au.phase.Busy? && s.au.phase.cur >= s.au.phase.limit { FinishInv(c.y, v, s); }
      case _ =>
    }
  }

  lemma FramesNonEmpty<E>(c: Script<E>)
    requires WellFenced(c)
    ensures NonEmpty(c.frames)
  {
    forall k | 0 <= k < |c.frames| ensures c.frames[k].n > 0 {
      assert FenceNames(c.msgs, c.frames[k]);
    }
  }

  /** What went wrong stays on record. */
  lemma CleanBefore<E>(c: Script<E>, s: Plane<E>, mv: Move)
    requires Clean(Next(c, s, mv))
    ensures Clean(s)
  {
  }

  lemma {:induction false} SesAlways<E>(c: Script<E>, moves: seq<Move>)
    ensures SesInv(c, After(c, moves))
  {
    if moves == [] {
      StartInv(c);
    } else {
      SesAlways(c, moves[..|moves| - 1]);
      SesNext(c, After(c, moves[..|moves| - 1]), moves[|moves| - 1]);
    }
  }

  lemma {:induction false} AfterInv<E(!new)>(c: Script<E>, moves: seq<Move>)
    requires Sound(c.y) && WellFenced(c) && Clean(After(c, moves))
    ensures Inv(ViewOf(c), After(c, moves))
  {
    if moves == [] {
      StartInv(c);
    } else {
      var s, mv := After(c, moves[..|moves| - 1]), moves[|moves| - 1];
      CleanBefore(c, s, mv);
      AfterInv(c, moves[..|moves| - 1]);
      SesAlways(c, moves[..|moves| - 1]);
      RendererDrains(c.y);
      FramesNonEmpty(c);
      NextInv(c, ViewOf(c), s, mv);
    }
  }

  // ---------------- the theorems ----------------

  /** Batched consumption refines per-message consumption: at every point of every interleaving, the
      blocks of the counted messages have been handed to the queue, in message order, and nothing
      beyond those of the consumed ones has. */
  lemma CountedIsHanded<E>(c: Script<E>, moves: seq<Move>)
    ensures var s := After(c, moves);
            && s.counted <= s.ses.m <= |c.msgs|
            && SpecBlocks(c.msgs, s.counted) <= s.handed <= SpecBlocks(c.msgs, s.ses.m)
  {
    var s := After(c, moves);
    SesAlways(c, moves);
    OwesPrefix(c.msgs, s.ses.todo, s.handed, s.counted, s.ses.stage, s.ses.m);
  }

  /** In every clean interleaving, each finished frame is the reference's: same events at the same
      positions, same audio, same lateness. */
  lemma FencedRenderIsReference<E(!new)>(c: Script<E>, moves: seq<Move>)
    requires Sound(c.y) && WellFenced(c) && Clean(After(c, moves))
    ensures var outs := After(c, moves).au.outs;
            |outs| <= |c.frames| && outs == Ref(ViewOf(c), |outs|).outs
  {
    AfterInv(c, moves);
  }

  lemma {:induction false} RefPrefix<E>(v: View<E>, j: nat, k: nat)
    requires j <= k <= |v.frames|
    ensures Ref(v, j).outs <= Ref(v, k).outs
    decreases k
  {
    if j < k {
      RefPrefix(v, j, k - 1);
    }
  }

  lemma OutAt<E(!new)>(v: View<E>, outs: seq<FrameOut>, k: nat)
    requires Drains(v.rend) && NonEmpty(v.frames) && k < |outs| <= |v.frames| && outs == Ref(v, |outs|).outs
    ensures k < |Ref(v, k + 1).outs| && outs[k] == Ref(v, k + 1).outs[k]
  {
    RefQueue(v, k + 1);
    RefPrefix(v, k + 1, |outs|);
  }

  /** Two interleavings of the same stream agree on every frame both have finished. */
  lemma InterleavingsAgree<E(!new)>(c: Script<E>, a: seq<Move>, b: seq<Move>, k: nat)
    requires Sound(c.y) && WellFenced(c) && Clean(After(c, a)) && Clean(After(c, b))
    requires k < |After(c, a).au.outs| && k < |After(c, b).au.outs|
    ensures After(c, a).au.outs[k] == After(c, b).au.outs[k]
  {
    FencedRenderIsReference(c, a);
    FencedRenderIsReference(c, b);
    RendererDrains(c.y);
    FramesNonEmpty(c);
    OutAt(ViewOf(c), After(c, a).au.outs, k);
    OutAt(ViewOf(c), After(c, b).au.outs, k);
  }

  // ---------------- nothing is late ----------------

  /** The render cursor before frame `k`. */
  function Cursor(frames: seq<Frame>, k: nat): nat
    requires k <= |frames|
  {
    if k == 0 then 0
    else if frames[k - 1].ts < Cursor(frames, k - 1) then Cursor(frames, k - 1)
    else End(frames[k - 1])
  }

  /** No frame starts past the cursor: the host skips no sample. */
  ghost predicate Gapless(frames: seq<Frame>)
  {
    forall k :: 0 <= k < |frames| ==> frames[k].ts <= Cursor(frames, k)
  }

  lemma {:induction false} RefCursor<E>(v: View<E>, k: nat)
    requires k <= |v.frames|
    ensures Ref(v, k).cursor == Cursor(v.frames, k)
  {
    if k > 0 {
      RefCursor(v, k - 1);
    }
  }

  /** Every application of the trace is at the event's own timestamp. */
  ghost predicate OnTime(t: seq<Applied>)
  {
    forall i :: 0 <= i < |t| ==> t[i].pos == t[i].ev.ts
  }

  lemma {:induction false} OnTimeNotLate(t: seq<Applied>)
    requires OnTime(t)
    ensures LateIn(t) == 0
  {
    if t != [] {
      OnTimeNotLate(t[1..]);
    }
  }

  lemma WholeOnTime<E(!new)>(y: Synth<E>, e: E, all: seq<Event>, pos: nat, limit: nat)
    requires Sound(y) && pos < limit
    ensures OnTime(Render(y, e, From(all, pos), pos, limit).trace) && Render(y, e, From(all, pos), pos, limit).late == 0
  {
    var q := From(all, pos);
    FromBound(all, pos);
    RenderTrace(y, e, q, pos, limit);
    RenderTiles(y, e, q, pos, limit);
    ScheduleInRange(q, pos, limit);
    OnTimeNotLate(Render(y, e, q, pos, limit).trace);
  }

  /** Without gaps, a clean fenced stream applies every event at its own timestamp, in every
      interleaving, and counts none late. */
  lemma NothingLate<E(!new)>(c: Script<E>, moves: seq<Move>, k: nat)
    requires Sound(c.y) && WellFenced(c) && Gapless(c.frames) && Clean(After(c, moves)) && k < |After(c, moves).au.outs|
    ensures var out := After(c, moves).au.outs[k];
            out.Played? ==> OnTime(out.trace) && out.late == 0
  {
    var v, outs := ViewOf(c), After(c, moves).au.outs;
    FencedRenderIsReference(c, moves);
    RendererDrains(c.y);
    FramesNonEmpty(c);
    OutAt(v, outs, k);
    RefQueue(v, k);
    RefCursor(v, k);
    var r, f := Ref(v, k), c.frames[k];
    assert Ref(v, k + 1) == RefNext(r, f, Whole(v, k));
    if f.ts == r.cursor {
      WholeOnTime(c.y, r.e, Flatten(v.all), f.ts, End(f));
    }
  }

  // ---------------- when a run is clean ----------------

  /** Offline the fence is a barrier: it never expires, so with counters inside the 32-bit window a
      run is clean exactly when nothing was dropped and no panic was raised. */
  lemma OfflineClean<E>(c: Script<E>, moves: seq<Move>)
    requires c.offline && |c.msgs| < HALF && (forall k :: 0 <= k < |c.frames| ==> c.frames[k].want < HALF)
    ensures Clean(After(c, moves)) <==> After(c, moves).drops == 0 && After(c, moves).signals == 0
  {
    OfflineNeverExpires(c, moves);
  }

  lemma {:induction false} OfflineNeverExpires<E>(c: Script<E>, moves: seq<Move>)
    requires c.offline && |c.msgs| < HALF && (forall k :: 0 <= k < |c.frames| ==> c.frames[k].want < HALF)
    ensures After(c, moves).au.timeouts == 0 && !After(c, moves).au.astray
  {
    if moves != [] {
      OfflineNeverExpires(c, moves[..|moves| - 1]);
      CountedIsHanded(c, moves[..|moves| - 1]);
      OfflineNext(c, After(c, moves[..|moves| - 1]), moves[|moves| - 1]);
    }
  }

  lemma OfflineNext<E>(c: Script<E>, s: Plane<E>, mv: Move)
    requires c.offline && s.counted < HALF && (forall k :: 0 <= k < |c.frames| ==> c.frames[k].want < HALF)
    ensures Next(c, s, mv).au.timeouts == s.au.timeouts && Next(c, s, mv).au.astray == s.au.astray
  {
  }

  /** Once the session thread has consumed every message and flushed, every fence is open. */
  lemma DrainedOpensFences<E>(c: Script<E>, moves: seq<Move>, f: Frame, now: nat, deadline: nat)
    requires var ses := After(c, moves).ses; ses.m == |c.msgs| && ses.stage == [] && ses.todo == []
    requires f.want <= |c.msgs| < HALF
    ensures After(c, moves).counted == |c.msgs| && !Blocked(c, f, |c.msgs|, now, deadline)
  {
    SesAlways(c, moves);
    PendingIsDifference(f.want, |c.msgs|);
  }
}
