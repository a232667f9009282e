/** What rendering a part does to its voices, call by call: every voice that is active when its turn comes
    is rendered once, in index order, and reclaimed at once; the part's new state and its output are the
    fold of those calls. */
module VoiceLog {
  import opened Sizes
  import opened Mix

  /** One call into the part's kernel. */
  datatype Call = Sounded(vi: nat) | Reclaimed(vi: nat)

  /** The same kernel, keeping a log of the calls made to it. */
  function Logging<P>(k: Kernel<P>): Kernel<(P, seq<Call>)>
  {
    Kernel((x: (P, seq<Call>), vi: nat) => k.active(x.0, vi),
           (x: (P, seq<Call>), vi: nat) => k.rings(x.0, vi),
           (x: (P, seq<Call>)) => k.stirring(x.0),
           (x: (P, seq<Call>), vi: nat, pos: nat, n: nat) =>
             var r := k.render(x.0, vi, pos, n); ((r.0, x.1 + [Sounded(vi)]), r.1),
           (x: (P, seq<Call>), vi: nat) => (k.reclaim(x.0, vi), x.1 + [Reclaimed(vi)]))
  }

  lemma LoggingStereo<P(!new)>(k: Kernel<P>)
    requires Stereo(k)
    ensures Stereo(Logging(k))
  {
    forall x: (P, seq<Call>), vi: nat, pos: nat, n: nat ensures |Logging(k).render(x, vi, pos, n).1| == 2 * n {
      assert |k.render(x.0, vi, pos, n).1| == 2 * n;
    }
  }

  /** The log of rendering a part's voices into any buffer. */
  ghost function PartLog<P(!new)>(k: Kernel<P>, p: P, out: seq<real>, pos: nat, n: nat, accumulate: bool): seq<Call>
    requires Stereo(k) && |out| == 2 * n
  {
    LoggingStereo(k);
    Voices(Logging(k), (p, []), out, 0, pos, n, accumulate, false).0.1
  }

  // ---------------- what a log does ----------------

  function Made<P(!new)>(k: Kernel<P>, x: (P, seq<real>), c: Call, pos: nat, n: nat): (r: (P, seq<real>))
    requires Stereo(k) && |x.1| == 2 * n
    ensures |r.1| == 2 * n
  {
    match c
    case Sounded(vi) => var r := k.render(x.0, vi, pos, n); (r.0, Plus(x.1, r.1))
    case Reclaimed(vi) => (k.reclaim(x.0, vi), x.1)
  }

  /** The part after the calls, and the sum of what they rendered. */
  ghost function Fold<P(!new)>(k: Kernel<P>, p: P, log: seq<Call>, pos: nat, n: nat): (r: (P, seq<real>))
    requires Stereo(k)
    ensures |r.1| == 2 * n
  {
    if log == [] then (p, Silence(n)) else Made(k, Fold(k, p, log[..|log| - 1], pos, n), log[|log| - 1], pos, n)
  }

  /** The calls of the voices below `v`. */
  ghost function Below(log: seq<Call>, v: nat): seq<Call>
  {
    if log == [] then []
    else
      var rest, c := Below(log[..|log| - 1], v), log[|log| - 1];
      if c.vi < v then rest + [c] else rest
  }

  ghost function Turn(vi: nat): seq<Call>
  {
    [Sounded(vi), Reclaimed(vi)]
  }

  /** Voices from `vi` on, in ascending order, each rendered and then reclaimed. */
  ghost predicate InTurn(log: seq<Call>, vi: nat)
    decreases |log|
  {
    if log == [] then true
    else
      && |log| >= 2 && vi <= log[0].vi < NVOICES && log[..2] == Turn(log[0].vi)
      && InTurn(log[2..], log[0].vi + 1)
  }

  /** A voice is rendered exactly if it is active once the voices before it have been served. */
  ghost predicate Served<P(!new)>(k: Kernel<P>, p: P, log: seq<Call>, pos: nat, n: nat, v: nat)
    requires Stereo(k)
  {
    Sounded(v) in log <==> k.active(Fold(k, p, Below(log, v), pos, n).0, v)
  }

  // ---------------- the calls, voice by voice ----------------

  ghost function Calls<P(!new)>(k: Kernel<P>, p: P, vi: nat, pos: nat, n: nat): seq<Call>
    requires vi <= NVOICES
    decreases NVOICES - vi
  {
    if vi == NVOICES then []
    else if !k.active(p, vi) then Calls(k, p, vi + 1, pos, n)
    else Turn(vi) + Calls(k, k.reclaim(k.render(p, vi, pos, n).0, vi), vi + 1, pos, n)
  }

  lemma LogRegroup(l: seq<Call>, vi: nat, rest: seq<Call>)
    ensures ((l + [Sounded(vi)]) + [Reclaimed(vi)]) + rest == l + (Turn(vi) + rest)
    ensures (l + [Sounded(vi)]) + [Reclaimed(vi)] == l + Turn(vi)
  {
  }

  /** A logging kernel renders as the kernel itself does, and its log grows by the calls. */
  lemma {:induction false} VoicesLog<P(!new)>(k: Kernel<P>, p: P, l: seq<Call>, out: seq<real>, vi: nat, pos: nat, n: nat,
        accumulate: bool, wrote: bool)
    requires Stereo(k) && Stereo(Logging(k)) && |out| == 2 * n && vi <= NVOICES
    ensures var r := Voices(k, p, out, vi, pos, n, accumulate, wrote);
            Voices(Logging(k), (p, l), out, vi, pos, n, accumulate, wrote) == ((r.0, l + Calls(k, p, vi, pos, n)), r.1)
    decreases NVOICES - vi
  {
    if vi == NVOICES {
      assert l + [] == l;
    } else if !k.active(p, vi) {
      VoicesLog(k, p, l, out, vi + 1, pos, n, accumulate, wrote);
    } else {
      var r := k.render(p, vi, pos, n);
      var q, out' := k.reclaim(r.0, vi), if wrote || accumulate then Plus(out, r.1) else r.1;
      LogRegroup(l, vi, Calls(k, q, vi + 1, pos, n));
      VoicesLog(k, q, (l + [Sounded(vi)]) + [Reclaimed(vi)], out', vi + 1, pos, n, accumulate, true);
    }
  }

  /** All its calls are of voices from `vi` on. */
  ghost predicate From(log: seq<Call>, vi: nat)
  {
    forall i :: 0 <= i < |log| ==> log[i].vi >= vi
  }

  ghost predicate Before(log: seq<Call>, vi: nat)
  {
    forall i :: 0 <= i < |log| ==> log[i].vi < vi
  }

  lemma {:induction false} InTurnFrom(log: seq<Call>, vi: nat)
    requires InTurn(log, vi)
    ensures From(log, vi)
    decreases |log|
  {
    if log != [] {
      InTurnFrom(log[2..], log[0].vi + 1);
      assert log[1] == log[..2][1] && log == log[..2] + log[2..];
    }
  }

  lemma {:induction false} CallsInTurn<P(!new)>(k: Kernel<P>, p: P, vi: nat, pos: nat, n: nat)
    requires vi <= NVOICES
    ensures InTurn(Calls(k, p, vi, pos, n), vi)
    decreases NVOICES - vi
  {
    if vi < NVOICES {
      if !k.active(p, vi) {
        CallsInTurn(k, p, vi + 1, pos, n);
      } else {
        var q := k.reclaim(k.render(p, vi, pos, n).0, vi);
        var rest := Calls(k, q, vi + 1, pos, n);
        CallsInTurn(k, q, vi + 1, pos, n);
        assert (Turn(vi) + rest)[..2] == Turn(vi) && (Turn(vi) + rest)[2..] == rest;
      }
    }
  }

  // ---------------- the fold ----------------

  lemma FoldTurn<P(!new)>(k: Kernel<P>, p: P, l: seq<Call>, vi: nat, pos: nat, n: nat)
    requires Stereo(k)
    ensures var f := Fold(k, p, l, pos, n);
            var r := k.render(f.0, vi, pos, n);
            Fold(k, p, l + Turn(vi), pos, n) == (k.reclaim(r.0, vi), Plus(f.1, r.1))
  {
    var log := l + Turn(vi);
    assert log[..|log| - 1] == l + [Sounded(vi)] && (l + [Sounded(vi)])[..|l|] == l;
    assert log[|log| - 1] == Reclaimed(vi) && (l + [Sounded(vi)])[|l|] == Sounded(vi);
  }

  /** The calls from `vi` on make what the sum of the voices from `vi` on says. */
  lemma {:induction false} CallsFold<P(!new)>(k: Kernel<P>, p: P, l: seq<Call>, q: P, vi: nat, pos: nat, n: nat)
    requires Stereo(k) && vi <= NVOICES && q == Fold(k, p, l, pos, n).0
    ensures Fold(k, p, l + Calls(k, q, vi, pos, n), pos, n)
         == (Sum(k, q, vi, pos, n).0, Plus(Fold(k, p, l, pos, n).1, Sum(k, q, vi, pos, n).1))
    decreases NVOICES - vi
  {
    var f := Fold(k, p, l, pos, n);
    if vi == NVOICES {
      assert l + [] == l;
      PlusSilence(f.1, n);
    } else if !k.active(q, vi) {
      CallsFold(k, p, l, q, vi + 1, pos, n);
    } else {
      var r := k.render(q, vi, pos, n);
      var q' := k.reclaim(r.0, vi);
      FoldTurn(k, p, l, vi, pos, n);
      CallsFold(k, p, l + Turn(vi), q', vi + 1, pos, n);
      ActiveFold(k, q, vi, pos, n, r, q', l, Calls(k, q', vi + 1, pos, n), f.1, Sum(k, q', vi + 1, pos, n));
    }
  }

  /** An active voice's turn comes before the rest of the calls, and its output before the rest of the sum. */
  lemma ActiveFold<P(!new)>(k: Kernel<P>, q: P, vi: nat, pos: nat, n: nat, r: (P, seq<real>), q': P, l: seq<Call>,
        rest: seq<Call>, before: seq<real>, s: (P, seq<real>))
    requires Stereo(k) && vi < NVOICES && k.active(q, vi) && |before| == 2 * n
    requires r == k.render(q, vi, pos, n) && q' == k.reclaim(r.0, vi)
    requires rest == Calls(k, q', vi + 1, pos, n) && s == Sum(k, q', vi + 1, pos, n)
    ensures l + Calls(k, q, vi, pos, n) == (l + Turn(vi)) + rest
    ensures Sum(k, q, vi, pos, n).0 == s.0 && Plus(before, Sum(k, q, vi, pos, n).1) == Plus(Plus(before, r.1), s.1)
  {
    assert (l + Turn(vi)) + rest == l + (Turn(vi) + rest);
    PlusAssoc(before, r.1, s.1);
  }

  // ---------------- who is served ----------------

  lemma {:induction false} BelowAppend(a: seq<Call>, b: seq<Call>, v: nat)
    ensures Below(a + b, v) == Below(a, v) + Below(b, v)
  {
    if b == [] {
      assert a + b == a;
    } else {
      assert (a + b)[..|a + b| - 1] == a + b[..|b| - 1];
      BelowAppend(a, b[..|b| - 1], v);
    }
  }

  lemma {:induction false} BelowAll(l: seq<Call>, v: nat)
    requires Before(l, v)
    ensures Below(l, v) == l
  {
    if l != [] {
      BelowAll(l[..|l| - 1], v);
      assert l == l[..|l| - 1] + [l[|l| - 1]];
    }
  }

  lemma {:induction false} BelowNone(l: seq<Call>, v: nat)
    requires From(l, v)
    ensures Below(l, v) == []
  {
    if l != [] {
      BelowNone(l[..|l| - 1], v);
    }
  }

  lemma BelowCut(l: seq<Call>, rest: seq<Call>, v: nat)
    requires Before(l, v) && From(rest, v)
    ensures Below(l + rest, v) == l
  {
    BelowAppend(l, rest, v);
    BelowAll(l, v);
    BelowNone(rest, v);
    assert l + [] == l;
  }

  lemma NotAmong(l: seq<Call>, rest: seq<Call>, v: nat)
    requires Before(l, v) && From(rest, v + 1)
    ensures Sounded(v) !in l + rest
  {
  }

  lemma Among(l: seq<Call>, rest: seq<Call>, v: nat)
    ensures Sounded(v) in l + (Turn(v) + rest)
  {
    assert (l + (Turn(v) + rest))[|l|] == Sounded(v);
  }

  lemma CallsFrom<P(!new)>(k: Kernel<P>, q: P, v: nat, pos: nat, n: nat)
    requires v <= NVOICES
    ensures From(Calls(k, q, v, pos, n), v)
  {
    CallsInTurn(k, q, v, pos, n);
    InTurnFrom(Calls(k, q, v, pos, n), v);
  }

  /** The voice whose turn it is. */
  lemma ServesNow<P(!new)>(k: Kernel<P>, p: P, l: seq<Call>, q: P, v: nat, pos: nat, n: nat, log: seq<Call>)
    requires Stereo(k) && v < NVOICES && Before(l, v) && q == Fold(k, p, l, pos, n).0
    requires log == l + Calls(k, q, v, pos, n)
    ensures Served(k, p, log, pos, n, v)
  {
    CallsFrom(k, q, v, pos, n);
    BelowCut(l, Calls(k, q, v, pos, n), v);
    if k.active(q, v) {
      Among(l, Calls(k, k.reclaim(k.render(q, v, pos, n).0, v), v + 1, pos, n), v);
    } else {
      CallsFrom(k, q, v + 1, pos, n);
      NotAmong(l, Calls(k, q, v + 1, pos, n), v);
    }
  }

  /** From `vi` on, with the calls `l` of the voices before it made. */
  lemma {:induction false} CallsServe<P(!new)>(k: Kernel<P>, p: P, l: seq<Call>, q: P, vi: nat, pos: nat, n: nat, v: nat,
        log: seq<Call>)
    requires Stereo(k) && vi <= v < NVOICES && Before(l, vi) && q == Fold(k, p, l, pos, n).0
    requires log == l + Calls(k, q, vi, pos, n)
    ensures Served(k, p, log, pos, n, v)
    decreases NVOICES - vi
  {
    if v == vi {
      ServesNow(k, p, l, q, v, pos, n, log);
    } else if !k.active(q, vi) {
      CallsServe(k, p, l, q, vi + 1, pos, n, v, log);
    } else {
      var q' := k.reclaim(k.render(q, vi, pos, n).0, vi);
      FoldTurn(k, p, l, vi, pos, n);
      TurnFirst(l, vi, Calls(k, q', vi + 1, pos, n));
      CallsServe(k, p, l + Turn(vi), q', vi + 1, pos, n, v, log);
    }
  }

  lemma TurnFirst(l: seq<Call>, vi: nat, rest: seq<Call>)
    ensures (l + Turn(vi)) + rest == l + (Turn(vi) + rest)
    ensures Before(l, vi) ==> Before(l + Turn(vi), vi + 1)
  {
  }

  // ---------------- the theorem ----------------

  lemma LogIsCalls<P(!new)>(k: Kernel<P>, p: P, out: seq<real>, pos: nat, n: nat, accumulate: bool)
    requires Stereo(k) && |out| == 2 * n
    ensures PartLog(k, p, out, pos, n, accumulate) == Calls(k, p, 0, pos, n)
  {
    LoggingStereo(k);
    VoicesLog(k, p, [], out, 0, pos, n, accumulate, false);
    assert [] + Calls(k, p, 0, pos, n) == Calls(k, p, 0, pos, n);
  }

  /** The calls of a part's turn: voices in index order, each reclaimed right after it is rendered, and
      rendered exactly if it is active once the voices before it have been served. */
  lemma PartServes<P(!new)>(k: Kernel<P>, p: P, out: seq<real>, pos: nat, n: nat, accumulate: bool)
    requires Stereo(k) && |out| == 2 * n
    ensures var log := PartLog(k, p, out, pos, n, accumulate);
            InTurn(log, 0) && forall v :: 0 <= v < NVOICES ==> Served(k, p, log, pos, n, v)
  {
    var log := Calls(k, p, 0, pos, n);
    LogIsCalls(k, p, out, pos, n, accumulate);
    CallsInTurn(k, p, 0, pos, n);
    assert [] + log == log;
    forall v | 0 <= v < NVOICES ensures Served(k, p, log, pos, n, v) {
      CallsServe(k, p, [], p, 0, pos, n, v, log);
    }
  }

  /** The part's state after its turn is the fold of those calls, and what it leaves in the buffer is the
      sum they rendered, fresh or added. */
  lemma PartIsItsLog<P(!new)>(k: Kernel<P>, p: P, out: seq<real>, pos: nat, n: nat, accumulate: bool)
    requires Stereo(k) && |out| == 2 * n
    ensures var f := Fold(k, p, PartLog(k, p, out, pos, n, accumulate), pos, n);
            Voices(k, p, out, 0, pos, n, accumulate, false) == (f.0, if accumulate then Plus(out, f.1) else f.1)
  {
    var log, s := Calls(k, p, 0, pos, n), Sum(k, p, 0, pos, n);
    LogIsCalls(k, p, out, pos, n, accumulate);
    CallsFold(k, p, [], p, 0, pos, n);
    assert [] + log == log;
    assert Plus(Silence(n), s.1) == s.1;
    if accumulate {
      VoicesAdd(k, p, out, 0, pos, n, true, false);
    } else {
      VoicesWrite(k, p, out, 0, pos, n);
    }
  }
}
