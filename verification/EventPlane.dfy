/** The event plane as a whole: the session thread and the audio thread interleaved action by action,
    with the event fence of section 8.3.1 between them.

    A schedule is any sequence of moves; a move that is not possible in a state leaves it unchanged,
    so quantifying over schedules is quantifying over every interleaving of the two threads. */
module EventPlane {
  import opened Events
  import opened Segments
  import opened EventQueue
  import opened Session
  import opened Modular

  // ---------------- the fence ----------------

  const HALF: int := 0x8000_0000

  /** The difference of two 32-bit counters, as a signed 32-bit value. */
  function Pending(want: nat, consumed: nat): int
  {
    var d := (want % WORD - consumed % WORD) % WORD;
    if d < HALF then d else d - WORD
  }

  predicate KeepWaiting(pending: int, running: bool, offline: bool, now: nat, deadline: nat)
  {
    if pending <= 0 || !running then false else offline || now < deadline
  }

  predicate CountTimeout(pending: int, running: bool, offline: bool)
  {
    !offline && running && pending > 0
  }

  predicate InWindow(want: nat, consumed: nat)
  {
    -HALF <= want - consumed < HALF
  }

  /** The wrapping comparison is the true one while the counters are less than half the space apart. */
  lemma PendingIsDifference(want: nat, consumed: nat)
    requires InWindow(want, consumed)
    ensures Pending(want, consumed) == want - consumed
  {
    ModDifference(want, consumed, WORD);
    if want < consumed {
      ModPlus(want - consumed, 1, WORD);
    }
  }

  // ---------------- the two threads ----------------

  datatype Frame = Frame(ts: nat, n: nat, fenced: bool, want: nat)

  /** The end of the frame's range [ts, ts + n). */
  function End(f: Frame): nat
  {
    f.ts + f.n
  }

  datatype FrameOut = Skipped | Played(trace: seq<Applied>, audio: seq<real>, late: nat)

  datatype Phase<E> = Idle | Busy(pos: nat, cur: nat, limit: nat, part: Out<E>)

  datatype Audio<E> = Audio(e: E, phase: Phase<E>, cursor: nat, outs: seq<FrameOut>, history: seq<Applied>,
                            timeouts: nat, astray: bool)

  datatype Plane<E> = Plane(ses: Ses, handed: seq<Block>, counted: nat, queue: seq<Event>, accepted: seq<Block>,
                            drops: nat, signals: nat, au: Audio<E>)

  datatype Script<!E> = Script(y: Synth<E>, e0: E, msgs: seq<Msg>, frames: seq<Frame>, offline: bool)

  datatype Move = Consume | FlushRun | Act | Pass(now: nat, deadline: nat) | Draw | Finish

  function Start<E>(c: Script<E>): Plane<E>
  {
    Plane(Ses(0, [], NO_TXNS, []), [], 0, [], [], 0, 0, Audio(c.e0, Idle, 0, [], [], 0, false))
  }

  /** The effect of one session action on the queue. */
  function Perform<E>(s: Plane<E>, a: Action): Plane<E>
  {
    match a
    case Run(evs) =>
      var room := if |s.queue| < QUEUE_CAP then QUEUE_CAP - |s.queue| else 0;
      s.(queue := PushEach(s.queue, evs), accepted := s.accepted + Singles(Admitted(room, evs)),
         drops := s.drops + |evs| - |Admitted(room, evs)|)
    case Batch(evs) =>
      if |s.queue| + |evs| <= QUEUE_CAP then s.(queue := s.queue + evs, accepted := s.accepted + [evs])
      else s.(drops := s.drops + |evs|)
    case One(ev) =>
      if |s.queue| < QUEUE_CAP then s.(queue := s.queue + [ev], accepted := s.accepted + [[ev]])
      else s.(drops := s.drops + 1)
    case OneUnlessFull(ev) =>
      if |s.queue| < QUEUE_CAP then s.(queue := s.queue + [ev], accepted := s.accepted + [[ev]])
      else s.(signals := s.signals + 1)
    case Signal => s.(signals := s.signals + 1)
    case Count(_) => s
  }

  function DoAct<E>(s: Plane<E>): Plane<E>
    requires s.ses.todo != []
  {
    var a := s.ses.todo[0];
    Perform(s, a).(ses := s.ses.(todo := s.ses.todo[1..]), handed := s.handed + Handed(a), counted := Tally(s.counted, a))
  }

  predicate Blocked<E>(c: Script<E>, f: Frame, counted: nat, now: nat, deadline: nat)
  {
    f.fenced && KeepWaiting(Pending(f.want, counted), true, c.offline, now, deadline)
  }

  /** Within the window, a fence holds a frame back exactly while messages it names are still to be
      counted and, in real time, the deadline has not passed; it counts a timeout exactly when a
      real-time frame goes ahead without them. */
  lemma FenceHolds<E>(c: Script<E>, f: Frame, counted: nat, now: nat, deadline: nat)
    requires f.fenced && InWindow(f.want, counted)
    ensures Blocked(c, f, counted, now, deadline) <==> counted < f.want && (c.offline || now < deadline)
    ensures CountTimeout(Pending(f.want, counted), true, c.offline) <==> counted < f.want && !c.offline
  {
    PendingIsDifference(f.want, counted);
  }

  /** Past the fence of the next frame: discard it if it rewinds, else start its range. */
  function DoPass<E>(c: Script<E>, s: Plane<E>, f: Frame): Plane<E>
  {
    var au := s.au.(
      timeouts := s.au.timeouts + if f.fenced && CountTimeout(Pending(f.want, s.counted), true, c.offline) then 1 else 0,
      astray := s.au.astray || (f.fenced && !InWindow(f.want, s.counted)));
    if f.ts < au.cursor then s.(au := au.(outs := au.outs + [Skipped]))
    else s.(au := au.(phase := Busy(f.ts, f.ts, End(f), Out(au.e, [], [], [], [], 0, 0))))
  }

  function DoDraw<E>(c: Script<E>, s: Plane<E>): Plane<E>
    requires s.au.phase.Busy? && s.au.phase.cur < s.au.phase.limit
  {
    var b := s.au.phase;
    var seg := SegStep(c.y, b.part.e, s.queue, b.cur, b.limit);
    s.(queue := seg.q,
       au := s.au.(phase := b.(cur := SegEnd(seg), part := Join(b.part, seg)),
                   history := s.au.history + seg.trace))
  }

  function DoFinish<E>(s: Plane<E>): Plane<E>
    requires s.au.phase.Busy?
  {
    var b := s.au.phase;
    s.(au := s.au.(e := b.part.e, phase := Idle, cursor := b.limit,
                   outs := s.au.outs + [Played(b.part.trace, b.part.audio, b.part.late)]))
  }

  function Next<E>(c: Script<E>, s: Plane<E>, mv: Move): Plane<E>
  {
    match mv
    case Consume => if s.ses.todo == [] && s.ses.m < |c.msgs| then s.(ses := Handle(s.ses, c.msgs[s.ses.m])) else s
    case FlushRun => if s.ses.todo == [] then s.(ses := Flush(s.ses)) else s
    case Act => if s.ses.todo != [] then DoAct(s) else s
    case Pass(now, deadline) =>
      if s.au.phase.Idle? && |s.au.outs| < |c.frames| && !Blocked(c, c.frames[|s.au.outs|], s.counted, now, deadline)
      then DoPass(c, s, c.frames[|s.au.outs|]) else s
    case Draw => if s.au.phase.Busy? && s.au.phase.cur < s.au.phase.limit then DoDraw(c, s) else s
    case Finish => if s.au.phase.Busy? && s.au.phase.cur >= s.au.phase.limit then DoFinish(s) else s
  }

  function After<E>(c: Script<E>, moves: seq<Move>): Plane<E>
  {
    if moves == [] then Start(c) else Next(c, After(c, moves[..|moves| - 1]), moves[|moves| - 1])
  }

  /** Nothing was dropped, no panic was raised, no fence expired or ran out of its window. */
  predicate Clean<E>(s: Plane<E>)
  {
    s.drops == 0 && s.signals == 0 && s.au.timeouts == 0 && !s.au.astray
  }
}
