/** A whole offline bounce: frames that follow each other without gap or overlap. Whatever the
    interleaving, the events applied are the stable schedule of everything the messages hand over, and
    the audio is one fold over the engine calls that schedule prescribes. */
module Bounce {
  import opened Events
  import opened Segments
  import opened RenderLog
  import opened Session
  import opened EventPlane
  import opened Determinism
  import opened EventProgress

  /** Where the first `k` frames end. */
  function EndOf(frames: seq<Frame>, k: nat): nat
    requires k <= |frames|
  {
    if k == 0 then 0 else End(frames[k - 1])
  }

  /** Every frame is non-empty and starts where the one before it ended, the first at 0. */
  ghost predicate Contiguous(frames: seq<Frame>)
  {
    forall k :: 0 <= k < |frames| ==> Follows(frames, k)
  }

  ghost predicate Follows(frames: seq<Frame>, k: nat)
    requires k < |frames|
  {
    frames[k].n > 0 && frames[k].ts == EndOf(frames, k)
  }

  /** The applications of the finished frames, in order. */
  ghost function Traces(outs: seq<FrameOut>): seq<Applied>
  {
    if outs == [] then []
    else Traces(outs[..|outs| - 1]) + if outs[|outs| - 1].Played? then outs[|outs| - 1].trace else []
  }

  /** Their audio. */
  ghost function Audios(outs: seq<FrameOut>): seq<real>
  {
    if outs == [] then []
    else Audios(outs[..|outs| - 1]) + if outs[|outs| - 1].Played? then outs[|outs| - 1].audio else []
  }

  ghost predicate AllPlayed(outs: seq<FrameOut>)
  {
    forall i :: 0 <= i < |outs| ==> outs[i].Played?
  }

  lemma OneMore(outs: seq<FrameOut>, o: FrameOut)
    requires o.Played?
    ensures Traces(outs + [o]) == Traces(outs) + o.trace && Audios(outs + [o]) == Audios(outs) + o.audio
  {
    assert (outs + [o])[..|outs|] == outs;
  }

  lemma {:induction false} TilesAppend(a: seq<Segment>, b: seq<Segment>, lo: nat, mid: nat, hi: nat)
    requires Tiles(a, lo, mid) && Tiles(b, mid, hi)
    ensures Tiles(a + b, lo, hi)
    decreases |a|
  {
    if a == [] {
      assert a + b == b;
    } else {
      TilesAppend(a[1..], b, lo + a[0].len, mid, hi);
      assert (a + b)[1..] == a[1..] + b;
    }
  }

  /** The calls of `log` are the whole schedule up to `end`, cover every sample once, and make `e` and
      `audio` of the engine `e0`. */
  ghost predicate Made<E>(y: Synth<E>, e0: E, all: seq<Event>, end: nat, log: seq<Step>, e: E, audio: seq<real>)
  {
    && AppsOf(log) == Schedule(all, 0, end)
    && Tiles(PlaysOf(log), 0, end)
    && Fold(y, e0, log) == (e, audio)
  }

  lemma ScheduleOn(all: seq<Event>, mid: nat, limit: nat)
    requires mid < limit
    ensures Schedule(all, 0, limit) == Schedule(all, 0, mid) + Schedule(From(all, mid), mid, limit)
  {
    if mid == 0 {
      FromAll(all, 0);
      assert Schedule(all, 0, 0) == [];
    } else {
      ScheduleSplit(all, 0, mid, limit);
    }
  }

  /** The block `o` rendered from `e` and `q`: its trace is the schedule of `q`, and the calls of `log`
      are that schedule, tile the block and make its engine and audio. */
  ghost predicate BlockMade<E>(y: Synth<E>, e: E, q: seq<Event>, cur: nat, limit: nat, o: Out<E>, log: seq<Step>)
  {
    && o.trace == Schedule(q, cur, limit) && o.q == From(q, limit)
    && AppsOf(log) == o.trace && Tiles(PlaysOf(log), cur, limit)
    && Fold(y, e, log) == (o.e, o.audio)
  }

  ghost predicate MadeBySome<E>(y: Synth<E>, e: E, q: seq<Event>, cur: nat, limit: nat, o: Out<E>)
  {
    exists log :: BlockMade(y, e, q, cur, limit, o, log)
  }

  lemma BlockHasLog<E(!new)>(y: Synth<E>, e: E, q: seq<Event>, cur: nat, limit: nat)
    requires Sound(y) && cur < limit
    ensures MadeBySome(y, e, q, cur, limit, Render(y, e, q, cur, limit))
  {
    LogIsScheduled(y, e, q, cur, limit);
    LogIsMeaning(y, e, q, cur, limit);
    RenderTrace(y, e, q, cur, limit);
    assert BlockMade(y, e, q, cur, limit, Render(y, e, q, cur, limit), BlockLog(y, e, q, cur, limit));
  }

  /** Every block of the renderer is made by some log of engine calls. */
  ghost predicate Logs<E(!new)>(y: Synth<E>, rend: (E, seq<Event>, nat, nat) -> Out<E>)
  {
    forall e: E, q: seq<Event>, cur: nat, limit: nat :: cur < limit ==>
      MadeBySome(y, e, q, cur, limit, rend(e, q, cur, limit))
  }

  lemma RendererLogs<E(!new)>(y: Synth<E>)
    requires Sound(y)
    ensures Logs(y, Renderer(y))
  {
    forall e: E, q: seq<Event>, cur: nat, limit: nat | cur < limit
      ensures MadeBySome(y, e, q, cur, limit, Renderer(y)(e, q, cur, limit))
    {
      BlockHasLog(y, e, q, cur, limit);
    }
  }

  /** One more block makes the log longer by the calls of its own. */
  lemma MadeOn<E>(y: Synth<E>, e0: E, all: seq<Event>, mid: nat, limit: nat, log: seq<Step>, e: E, audio: seq<real>,
        o: Out<E>, g: seq<Step>)
    requires mid < limit && Made(y, e0, all, mid, log, e, audio) && BlockMade(y, e, From(all, mid), mid, limit, o, g)
    ensures Made(y, e0, all, limit, log + g, o.e, audio + o.audio)
  {
    ScheduleOn(all, mid, limit);
    OfAppend(log, g);
    TilesAppend(PlaysOf(log), PlaysOf(g), 0, mid, limit);
    FoldAppend(y, e0, log, g);
  }

  /** What the reference has done after some frames, up to `end`. */
  ghost predicate Bounced<E>(y: Synth<E>, e0: E, all: seq<Event>, end: nat, log: seq<Step>, r: RefState<E>)
  {
    && r.cursor == end && r.q == From(all, end)
    && AllPlayed(r.outs) && Traces(r.outs) == Schedule(all, 0, end)
    && Made(y, e0, all, end, log, r.e, Audios(r.outs))
  }

  lemma BouncedOn<E>(y: Synth<E>, e0: E, all: seq<Event>, log: seq<Step>, r: RefState<E>, f: Frame, o: Out<E>, g: seq<Step>)
    requires f.n > 0 && Bounced(y, e0, all, f.ts, log, r) && BlockMade(y, r.e, r.q, f.ts, End(f), o, g)
    ensures Bounced(y, e0, all, End(f), log + g, RefNext(r, f, o))
  {
    var end := End(f);
    MadeOn(y, e0, all, f.ts, end, log, r.e, Audios(r.outs), o, g);
    ScheduleOn(all, f.ts, end);
    OneMore(r.outs, Played(o.trace, o.audio, o.late));
    Nested(all, f.ts, end);
  }

  /** Some log makes the state. */
  ghost predicate SomeLog<E>(y: Synth<E>, e0: E, all: seq<Event>, end: nat, r: RefState<E>)
  {
    exists log :: Bounced(y, e0, all, end, log, r)
  }

  lemma BouncedNext<E>(y: Synth<E>, e0: E, all: seq<Event>, r: RefState<E>, f: Frame, o: Out<E>, end: nat, r': RefState<E>)
    requires f.n > 0 && SomeLog(y, e0, all, f.ts, r) && MadeBySome(y, r.e, r.q, f.ts, End(f), o)
    requires end == End(f) && r' == RefNext(r, f, o)
    ensures SomeLog(y, e0, all, end, r')
  {
    var log :| Bounced(y, e0, all, f.ts, log, r);
    var g :| BlockMade(y, r.e, r.q, f.ts, End(f), o, g);
    BouncedOn(y, e0, all, log, r, f, o, g);
  }

  /** Some log makes the first `k` frames of the reference. */
  ghost predicate HasLog<E>(y: Synth<E>, v: View<E>, k: nat)
    requires k <= |v.frames|
  {
    SomeLog(y, v.e0, Flatten(v.all), EndOf(v.frames, k), Ref(v, k))
  }

  lemma BounceStart<E>(y: Synth<E>, v: View<E>)
    ensures HasLog(y, v, 0)
  {
    FromAll(Flatten(v.all), 0);
    assert Bounced(y, v.e0, Flatten(v.all), EndOf(v.frames, 0), [], Ref(v, 0));
  }

  lemma BounceOn<E(!new)>(y: Synth<E>, v: View<E>, p: nat, k: nat)
    requires Logs(y, v.rend) && Contiguous(v.frames) && k == p + 1 <= |v.frames|
    requires HasLog(y, v, p)
    ensures HasLog(y, v, k)
  {
    var r, f := Ref(v, p), v.frames[p];
    assert Follows(v.frames, p);
    BouncedNext(y, v.e0, Flatten(v.all), r, f, v.rend(r.e, r.q, f.ts, End(f)), EndOf(v.frames, k), Ref(v, k));
  }

  lemma {:induction false} RefHasLog<E(!new)>(y: Synth<E>, v: View<E>, k: nat)
    requires Logs(y, v.rend) && Contiguous(v.frames) && k <= |v.frames|
    ensures HasLog(y, v, k)
  {
    if k == 0 {
      BounceStart(y, v);
    } else {
      RefHasLog(y, v, k - 1);
      BounceOn(y, v, k - 1, k);
    }
  }

  /** In every clean interleaving of a contiguous stream, once a frame is finished everything up to there
      is the schedule of all events handed over, and the audio and the engine are made by its calls. */
  lemma StreamIsSchedule<E(!new)>(c: Script<E>, moves: seq<Move>) returns (log: seq<Step>)
    requires Sound(c.y) && WellFenced(c) && Contiguous(c.frames) && Clean(After(c, moves))
    ensures var au := After(c, moves).au;
            && |au.outs| <= |c.frames| && AllPlayed(au.outs)
            && Traces(au.outs) == Schedule(Flatten(AllBlocks(c)), 0, EndOf(c.frames, |au.outs|))
            && Made(c.y, c.e0, Flatten(AllBlocks(c)), EndOf(c.frames, |au.outs|), log, au.e, Audios(au.outs))
  {
    AfterInv(c, moves);
    var v, k := ViewOf(c), |After(c, moves).au.outs|;
    RendererLogs(c.y);
    RefHasLog(c.y, v, k);
    log :| Bounced(c.y, v.e0, Flatten(v.all), EndOf(v.frames, k), log, Ref(v, k));
  }

  /** An offline bounce that can go no further and lost nothing has applied the schedule of everything, up
      to the end of its last frame, and its audio is made by that schedule's calls. */
  lemma BounceIsSchedule<E(!new)>(c: Script<E>, moves: seq<Move>) returns (log: seq<Step>)
    requires Sound(c.y) && WellFenced(c) && Contiguous(c.frames)
    requires c.offline && |c.msgs| < HALF && Stuck(c, After(c, moves))
    requires After(c, moves).drops == 0 && After(c, moves).signals == 0
    ensures var au, end := After(c, moves).au, EndOf(c.frames, |c.frames|);
            && Traces(au.outs) == Schedule(Flatten(AllBlocks(c)), 0, end)
            && Made(c.y, c.e0, Flatten(AllBlocks(c)), end, log, au.e, Audios(au.outs))
  {
    forall k | 0 <= k < |c.frames| ensures c.frames[k].want <= |c.msgs| {
      assert FenceNames(c.msgs, c.frames[k]);
    }
    StuckIsDone(c, moves);
    OfflineClean(c, moves);
    log := StreamIsSchedule(c, moves);
  }
}
