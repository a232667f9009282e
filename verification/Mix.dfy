/** The two segment renderers over exact arithmetic: the fast main mix, which sums every voice straight
    into the output, and the per-part renderer, which renders each needed part once into a scratch and
    distributes it. The voice kernel is uninterpreted. */
module Mix {
  import opened Sizes

  /** The engine behind one part: which voices are active or still ring, the kernel that advances a
      part by one voice over a segment, the reclaiming of a decayed voice, and whether the part has
      latched notes or a pending panic. */
  datatype Kernel<!P> = Kernel(
    active: (P, nat) -> bool,
    rings: (P, nat) -> bool,
    stirring: P -> bool,
    render: (P, nat, nat, nat) -> (P, seq<real>),
    reclaim: (P, nat) -> P)

  /** A segment of `n` frames is `2 * n` interleaved samples. */
  ghost predicate Stereo<P(!new)>(k: Kernel<P>)
  {
    forall p: P, vi: nat, pos: nat, n: nat :: |k.render(p, vi, pos, n).1| == 2 * n
  }

  /** The part sounds now or still rings. */
  predicate PartActive<P>(k: Kernel<P>, p: P)
  {
    k.stirring(p) || exists vi :: 0 <= vi < NVOICES && (k.active(p, vi) || k.rings(p, vi))
  }

  function Silence(n: nat): (s: seq<real>)
    ensures |s| == 2 * n
  {
    seq(2 * n, i => 0.0)
  }

  function Plus(a: seq<real>, b: seq<real>): (s: seq<real>)
    requires |a| == |b|
    ensures |s| == |a|
    ensures forall i :: 0 <= i < |a| ==> s[i] == a[i] + b[i]
  {
    seq(|a|, i requires 0 <= i < |a| => a[i] + b[i])
  }

  lemma PlusAssoc(a: seq<real>, b: seq<real>, c: seq<real>)
    requires |a| == |b| == |c|
    ensures Plus(a, Plus(b, c)) == Plus(Plus(a, b), c)
  {
  }

  lemma PlusSilence(a: seq<real>, n: nat)
    requires |a| == 2 * n
    ensures Plus(a, Silence(n)) == a
  {
  }

  // ---------------- one part ----------------

  /** The part's voices from `vi` on, into `out`: the first writer writes or adds as `accumulate`
      says, later voices always add; a buffer nobody wrote is silence. */
  function Voices<P(!new)>(k: Kernel<P>, p: P, out: seq<real>, vi: nat, pos: nat, n: nat, accumulate: bool,
        wrote: bool): (r: (P, seq<real>))
    requires Stereo(k) && |out| == 2 * n && vi <= NVOICES
    ensures |r.1| == 2 * n
    decreases NVOICES - vi
  {
    if vi == NVOICES then (p, if !wrote && !accumulate then Silence(n) else out)
    else if !k.active(p, vi) then Voices(k, p, out, vi + 1, pos, n, accumulate, wrote)
    else
      var r := k.render(p, vi, pos, n);
      Voices(k, k.reclaim(r.0, vi), if wrote || accumulate then Plus(out, r.1) else r.1, vi + 1, pos, n, accumulate, true)
  }

  /** The sum of the part's active voices, and the part after each was advanced once. */
  ghost function Sum<P(!new)>(k: Kernel<P>, p: P, vi: nat, pos: nat, n: nat): (r: (P, seq<real>))
    requires Stereo(k) && vi <= NVOICES
    ensures |r.1| == 2 * n
    decreases NVOICES - vi
  {
    if vi == NVOICES then (p, Silence(n))
    else if !k.active(p, vi) then Sum(k, p, vi + 1, pos, n)
    else
      var r := k.render(p, vi, pos, n);
      var s := Sum(k, k.reclaim(r.0, vi), vi + 1, pos, n);
      (s.0, Plus(r.1, s.1))
  }

  lemma {:induction false} VoicesAdd<P(!new)>(k: Kernel<P>, p: P, out: seq<real>, vi: nat, pos: nat, n: nat,
        accumulate: bool, wrote: bool)
    requires Stereo(k) && |out| == 2 * n && vi <= NVOICES && (accumulate || wrote)
    ensures Voices(k, p, out, vi, pos, n, accumulate, wrote) == (Sum(k, p, vi, pos, n).0, Plus(out, Sum(k, p, vi, pos, n).1))
    decreases NVOICES - vi
  {
    if vi == NVOICES {
      PlusSilence(out, n);
    } else if !k.active(p, vi) {
      VoicesAdd(k, p, out, vi + 1, pos, n, accumulate, wrote);
    } else {
      var r := k.render(p, vi, pos, n);
      var q := k.reclaim(r.0, vi);
      VoicesAdd(k, q, Plus(out, r.1), vi + 1, pos, n, accumulate, true);
      PlusAssoc(out, r.1, Sum(k, q, vi + 1, pos, n).1);
    }
  }

  /** Written fresh, a part's output is the sum of its voices whatever the buffer held. */
  lemma {:induction false} VoicesWrite<P(!new)>(k: Kernel<P>, p: P, out: seq<real>, vi: nat, pos: nat, n: nat)
    requires Stereo(k) && |out| == 2 * n && vi <= NVOICES
    ensures Voices(k, p, out, vi, pos, n, false, false) == Sum(k, p, vi, pos, n)
    decreases NVOICES - vi
  {
    if vi < NVOICES {
      if !k.active(p, vi) {
        VoicesWrite(k, p, out, vi + 1, pos, n);
      } else {
        var r := k.render(p, vi, pos, n);
        VoicesAdd(k, k.reclaim(r.0, vi), r.1, vi + 1, pos, n, false, true);
      }
    }
  }

  /** An idle part does not move and is silent. */
  lemma {:induction false} IdleIsSilent<P(!new)>(k: Kernel<P>, p: P, vi: nat, pos: nat, n: nat)
    requires Stereo(k) && vi <= NVOICES && !PartActive(k, p)
    ensures Sum(k, p, vi, pos, n) == (p, Silence(n))
    decreases NVOICES - vi
  {
    if vi < NVOICES {
      assert !k.active(p, vi);
      IdleIsSilent(k, p, vi + 1, pos, n);
    }
  }

  // ---------------- the fast main mix ----------------

  datatype Mixed<P> = Mixed(parts: seq<P>, mix: seq<real>)

  /** Part 0 writes, the active parts from 1 on add. */
  function FastPart<P(!new)>(k: Kernel<P>, m: Mixed<P>, pi: nat, pos: nat, n: nat): (r: Mixed<P>)
    requires Stereo(k) && pi < |m.parts| && |m.mix| == 2 * n
    ensures |r.parts| == |m.parts| && |r.mix| == 2 * n
  {
    if pi == 0 || PartActive(k, m.parts[pi]) then
      var v := Voices(k, m.parts[pi], m.mix, 0, pos, n, pi != 0, false);
      Mixed(m.parts[pi := v.0], v.1)
    else m
  }

  function Fast<P(!new)>(k: Kernel<P>, m: Mixed<P>, upto: nat, pos: nat, n: nat): (r: Mixed<P>)
    requires Stereo(k) && upto <= |m.parts| && |m.mix| == 2 * n
    ensures |r.parts| == |m.parts| && |r.mix| == 2 * n
  {
    if upto == 0 then m else FastPart(k, Fast(k, m, upto - 1, pos, n), upto - 1, pos, n)
  }

  // ---------------- the per-part renderer ----------------

  /** `written` tells the first writer of the mix; `scr` holds the scratch of each part that has its
      own output slots. */
  datatype Split<P> = Split(parts: seq<P>, mix: seq<real>, written: bool, scr: map<nat, seq<real>>)

  function SplitPart<P(!new)>(k: Kernel<P>, m: Split<P>, pi: nat, pos: nat, n: nat, main: bool, own: set<nat>,
        junk: seq<real>): (r: Split<P>)
    requires Stereo(k) && pi < |m.parts| && |m.mix| == 2 * n && |junk| == 2 * n
    ensures |r.parts| == |m.parts| && |r.mix| == 2 * n
  {
    var inMix := main && (pi == 0 || PartActive(k, m.parts[pi]));
    if !inMix && pi !in own then m
    else
      var v := Voices(k, m.parts[pi], junk, 0, pos, n, false, false);
      Split(m.parts[pi := v.0],
            if inMix then if m.written then Plus(m.mix, v.1) else v.1 else m.mix,
            m.written || inMix,
            if pi in own then m.scr[pi := v.1] else m.scr)
  }

  function SplitAll<P(!new)>(k: Kernel<P>, m: Split<P>, upto: nat, pos: nat, n: nat, main: bool, own: set<nat>,
        junk: seq<real>): (r: Split<P>)
    requires Stereo(k) && upto <= |m.parts| && |m.mix| == 2 * n && |junk| == 2 * n
    ensures |r.parts| == |m.parts| && |r.mix| == 2 * n
  {
    if upto == 0 then m else SplitPart(k, SplitAll(k, m, upto - 1, pos, n, main, own, junk), upto - 1, pos, n, main, own, junk)
  }

  // ---------------- they agree ----------------

  /** One part: the same state and the same mix, whether or not the part also has slots of its own. */
  lemma PartAgrees<P(!new)>(k: Kernel<P>, f: Mixed<P>, m: Split<P>, pi: nat, pos: nat, n: nat, own: set<nat>,
        junk: seq<real>)
    requires Stereo(k) && pi < |m.parts| && |m.mix| == |f.mix| == 2 * n && |junk| == 2 * n
    requires m.parts == f.parts && (m.written <==> pi > 0) && (pi > 0 ==> m.mix == f.mix)
    ensures var m', f' := SplitPart(k, m, pi, pos, n, true, own, junk), FastPart(k, f, pi, pos, n);
            m'.parts == f'.parts && m'.written && m'.mix == f'.mix
  {
    var p := m.parts[pi];
    VoicesWrite(k, p, junk, 0, pos, n);
    if pi == 0 {
      VoicesWrite(k, p, f.mix, 0, pos, n);
    } else if PartActive(k, p) {
      VoicesAdd(k, p, f.mix, 0, pos, n, true, false);
    } else {
      IdleIsSilent(k, p, 0, pos, n);
    }
  }

  lemma {:induction false} AllAgree<P(!new)>(k: Kernel<P>, f: Mixed<P>, m: Split<P>, upto: nat, pos: nat, n: nat,
        own: set<nat>, junk: seq<real>)
    requires Stereo(k) && upto <= |m.parts| && |m.mix| == |f.mix| == 2 * n && |junk| == 2 * n
    requires m.parts == f.parts && !m.written
    ensures var m', f' := SplitAll(k, m, upto, pos, n, true, own, junk), Fast(k, f, upto, pos, n);
            m'.parts == f'.parts && (m'.written <==> upto > 0) && (upto > 0 ==> m'.mix == f'.mix)
  {
    if upto > 0 {
      AllAgree(k, f, m, upto - 1, pos, n, own, junk);
      PartAgrees(k, Fast(k, f, upto - 1, pos, n), SplitAll(k, m, upto - 1, pos, n, true, own, junk), upto - 1, pos, n, own, junk);
    }
  }

  /** No part is advanced more than once, always from the state it had at the start of the segment. With
      the main mix every part is advanced exactly once, an idle one staying as it is; so is every part
      with slots of its own, which carry the sum of its voices. */
  lemma {:induction false} AdvancedOnce<P(!new)>(k: Kernel<P>, m: Split<P>, upto: nat, pos: nat, n: nat,
        main: bool, own: set<nat>, junk: seq<real>, pi: nat)
    requires Stereo(k) && upto <= |m.parts| && |m.mix| == 2 * n && |junk| == 2 * n && pi < |m.parts|
    ensures var m' := SplitAll(k, m, upto, pos, n, main, own, junk); var s := Sum(k, m.parts[pi], 0, pos, n);
            && (pi >= upto ==> m'.parts[pi] == m.parts[pi])
            && (pi < upto ==> m'.parts[pi] == m.parts[pi] || m'.parts[pi] == s.0)
            && (pi < upto && main ==> m'.parts[pi] == s.0)
            && (pi < upto && pi in own ==> m'.parts[pi] == s.0 && pi in m'.scr && m'.scr[pi] == s.1)
  {
    if upto > 0 {
      AdvancedOnce(k, m, upto - 1, pos, n, main, own, junk, pi);
      var prev := SplitAll(k, m, upto - 1, pos, n, main, own, junk);
      AdvancesPart(k, prev, upto - 1, pos, n, main, own, junk, pi);
    }
  }

  /** One part's turn: the part itself is advanced if it is asked for, and no other one moves. */
  lemma AdvancesPart<P(!new)>(k: Kernel<P>, m: Split<P>, at: nat, pos: nat, n: nat, main: bool, own: set<nat>,
        junk: seq<real>, pi: nat)
    requires Stereo(k) && at < |m.parts| && |m.mix| == 2 * n && |junk| == 2 * n && pi < |m.parts|
    ensures var m' := SplitPart(k, m, at, pos, n, main, own, junk); var s := Sum(k, m.parts[pi], 0, pos, n);
            && (pi != at ==> m'.parts[pi] == m.parts[pi] && (pi in m.scr ==> pi in m'.scr && m'.scr[pi] == m.scr[pi]))
            && (pi == at ==> m'.parts[pi] == if main || pi in own then s.0 else m.parts[pi])
            && (pi == at && pi in own ==> pi in m'.scr && m'.scr[pi] == s.1)
  {
    if pi == at {
      VoicesWrite(k, m.parts[pi], junk, 0, pos, n);
      if !PartActive(k, m.parts[pi]) {
        IdleIsSilent(k, m.parts[pi], 0, pos, n);
      }
    }
  }
}
