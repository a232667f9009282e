/** The event plane neither runs for ever nor hangs: every move that changes anything leaves less to do,
    and a schedule that can go no further has consumed every message and finished every frame. */
module EventProgress {
  import opened Events
  import opened Segments
  import opened EventQueue
  import opened Session
  import opened EventPlane
  import opened Determinism

  // ---------------- every effective move leaves less to do ----------------

  /** Messages to consume, a run to flush, actions to take. */
  function SessionLeft(ses: Ses, total: nat): nat
  {
    (if ses.m < total then 10 * (total - ses.m) else 0) + (if ses.stage == [] then 0 else 3) + |ses.todo|
  }

  /** Samples to render and frames to pass and finish, from frame `k` on. */
  function FramesLeft(frames: seq<Frame>, k: nat): nat
    decreases if k < |frames| then |frames| - k else 0
  {
    if k >= |frames| then 0 else frames[k].n + 2 + FramesLeft(frames, k + 1)
  }

  function AudioLeft<E>(au: Audio<E>, frames: seq<Frame>): nat
  {
    match au.phase
    case Idle => FramesLeft(frames, |au.outs|)
    case Busy(_, cur, limit, _) => (if cur < limit then limit - cur else 0) + 1 + FramesLeft(frames, |au.outs| + 1)
  }

  function PlaneLeft<E>(c: Script<E>, s: Plane<E>): nat
  {
    SessionLeft(s.ses, |c.msgs|) + AudioLeft(s.au, c.frames)
  }

  lemma FlushSize(stage: seq<Event>)
    ensures |FlushActions(stage)| == if stage == [] then 0 else 2
  {
  }

  lemma WorkSize(t: Txns, m: Msg)
    ensures |Work(t, m)| <= 2
  {
  }

  lemma HandleLess(ses: Ses, m: Msg, total: nat)
    requires ses.todo == [] && ses.m < total
    ensures SessionLeft(Handle(ses, m), total) < SessionLeft(ses, total)
  {
    FlushSize(ses.stage);
    WorkSize(ses.t, m);
  }

  lemma PassLess<E>(c: Script<E>, s: Plane<E>, f: Frame)
    requires s.au.phase.Idle? && |s.au.outs| < |c.frames| && f == c.frames[|s.au.outs|]
    ensures AudioLeft(DoPass(c, s, f).au, c.frames) < AudioLeft(s.au, c.frames)
  {
  }

  lemma DrawLess<E>(c: Script<E>, s: Plane<E>)
    requires s.au.phase.Busy? && s.au.phase.cur < s.au.phase.limit
    ensures AudioLeft(DoDraw(c, s).au, c.frames) < AudioLeft(s.au, c.frames)
  {
  }

  lemma FinishLess<E>(c: Script<E>, s: Plane<E>)
    requires s.au.phase.Busy? && s.au.phase.cur >= s.au.phase.limit
    ensures AudioLeft(DoFinish(s).au, c.frames) < AudioLeft(s.au, c.frames)
  {
  }

  /** Every move that changes the state, in any state, strictly reduces what is left, so no schedule
      goes on for ever. */
  lemma MovesRunDown<E>(c: Script<E>, s: Plane<E>, mv: Move)
    requires Next(c, s, mv) != s
    ensures PlaneLeft(c, Next(c, s, mv)) < PlaneLeft(c, s)
  {
    match mv {
      case Consume => HandleLess(s.ses, c.msgs[s.ses.m], |c.msgs|);
      case FlushRun =>
        FlushSize(s.ses.stage);
        assert s.ses.stage != [];
      case Act =>
      case Pass(_, _) => PassLess(c, s, c.frames[|s.au.outs|]);
      case Draw => DrawLess(c, s);
      case Finish => FinishLess(c, s);
    }
  }

  // ---------------- a schedule that cannot go on is done ----------------

  /** No thread can move, whatever the clock says. */
  ghost predicate Stuck<E>(c: Script<E>, s: Plane<E>)
  {
    && Next(c, s, Consume) == s && Next(c, s, FlushRun) == s && Next(c, s, Act) == s
    && Next(c, s, Draw) == s && Next(c, s, Finish) == s
    && forall now: nat, deadline: nat :: Next(c, s, Pass(now, deadline)) == s
  }

  lemma StuckSession<E>(c: Script<E>, s: Plane<E>)
    requires Stuck(c, s)
    ensures s.ses.todo == [] && s.ses.stage == [] && s.ses.m >= |c.msgs|
  {
    assert s.ses.todo != [] ==> |Next(c, s, Act).ses.todo| < |s.ses.todo|;
    assert s.ses.todo == [] && s.ses.m < |c.msgs| ==> Next(c, s, Consume).ses.m == s.ses.m + 1;
    assert s.ses.todo == [] ==> Next(c, s, FlushRun).ses.stage == [];
  }

  lemma StuckAudio<E>(c: Script<E>, s: Plane<E>)
    requires Stuck(c, s)
    ensures s.au.phase.Idle?
    ensures |s.au.outs| < |c.frames| ==> Blocked(c, c.frames[|s.au.outs|], s.counted, 0, 0)
  {
    var next := Next(c, s, Pass(0, 0));
    if s.au.phase.Busy? {
      if s.au.phase.cur < s.au.phase.limit {
        DrawLess(c, s);
      } else {
        FinishLess(c, s);
      }
    } else if |s.au.outs| < |c.frames| && !Blocked(c, c.frames[|s.au.outs|], s.counted, 0, 0) {
      PassLess(c, s, c.frames[|s.au.outs|]);
    }
  }

  /** No fence hangs: with fences that name existing messages and counters inside the 32-bit window, a
      schedule that can go no further, offline or in real time, has consumed, counted and flushed
      every message and finished every frame. */
  lemma StuckIsDone<E>(c: Script<E>, moves: seq<Move>)
    requires |c.msgs| < HALF && (forall k :: 0 <= k < |c.frames| ==> c.frames[k].want <= |c.msgs|)
    requires Stuck(c, After(c, moves))
    ensures var s := After(c, moves);
            && s.ses.m == |c.msgs| && s.ses.stage == [] && s.ses.todo == [] && s.counted == |c.msgs|
            && s.handed == SpecBlocks(c.msgs, |c.msgs|)
            && s.au.phase.Idle? && |s.au.outs| == |c.frames|
  {
    var s := After(c, moves);
    StuckSession(c, s);
    StuckAudio(c, s);
    SesAlways(c, moves);
    FramesWithin(c, moves);
    assert s.handed + Singles([]) == s.handed;
    if |s.au.outs| < |c.frames| {
      DrainedOpensFences(c, moves, c.frames[|s.au.outs|], 0, 0);
    }
  }

  /** No more frames are passed than there are. */
  lemma {:induction false} FramesWithin<E>(c: Script<E>, moves: seq<Move>)
    ensures var au := After(c, moves).au; |au.outs| + (if au.phase.Busy? then 1 else 0) <= |c.frames|
  {
    if moves != [] {
      FramesWithin(c, moves[..|moves| - 1]);
      FramesNext(c, After(c, moves[..|moves| - 1]), moves[|moves| - 1]);
    }
  }

  lemma FramesNext<E>(c: Script<E>, s: Plane<E>, mv: Move)
    requires |s.au.outs| + (if s.au.phase.Busy? then 1 else 0) <= |c.frames|
    ensures var au := Next(c, s, mv).au; |au.outs| + (if au.phase.Busy? then 1 else 0) <= |c.frames|
  {
  }

  /** An offline bounce that can go no further and dropped nothing has rendered every frame as the
      single-threaded reference does. */
  lemma BounceIsReference<E(!new)>(c: Script<E>, moves: seq<Move>)
    requires Sound(c.y) && WellFenced(c) && c.offline && |c.msgs| < HALF && Stuck(c, After(c, moves))
    requires After(c, moves).drops == 0 && After(c, moves).signals == 0
    ensures After(c, moves).au.outs == Ref(ViewOf(c), |c.frames|).outs
  {
    forall k | 0 <= k < |c.frames| ensures c.frames[k].want <= |c.msgs| {
      assert FenceNames(c.msgs, c.frames[k]);
    }
    StuckIsDone(c, moves);
    OfflineClean(c, moves);
    FencedRenderIsReference(c, moves);
  }
}
