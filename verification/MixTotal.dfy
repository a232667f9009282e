/** What a segment sounds like: every part that is rendered is advanced once, the main mix is the sum of
    all parts, sample by sample, and a part's own output slots carry its channels. */
module MixTotal {
  import opened Modular
  import opened Mix
  import opened MixBlock

  /** Sample `i` of the first `upto` parts, added up. */
  ghost function TotalAt<P(!new)>(k: Kernel<P>, parts: seq<P>, upto: nat, pos: nat, n: nat, i: nat): real
    requires Stereo(k) && upto <= |parts| && i < 2 * n
  {
    if upto == 0 then 0.0 else TotalAt(k, parts, upto - 1, pos, n, i) + Sum(k, parts[upto - 1], 0, pos, n).1[i]
  }

  /** The parts below `upto` advanced once, the others as they were. */
  ghost predicate Advanced<P(!new)>(k: Kernel<P>, before: seq<P>, after: seq<P>, upto: nat, pos: nat, n: nat)
    requires Stereo(k)
  {
    && |after| == |before|
    && forall pi :: 0 <= pi < |before| ==>
      after[pi] == if pi < upto then Sum(k, before[pi], 0, pos, n).0 else before[pi]
  }

  ghost predicate IsTotal<P(!new)>(k: Kernel<P>, parts: seq<P>, upto: nat, pos: nat, n: nat, mix: seq<real>)
    requires Stereo(k) && upto <= |parts|
  {
    |mix| == 2 * n && forall i :: 0 <= i < 2 * n ==> mix[i] == TotalAt(k, parts, upto, pos, n, i)
  }

  // ---------------- the fast main mix ----------------

  /** One more part: it is advanced once, and its sum is written (part 0) or added. */
  lemma FastPartAdds<P(!new)>(k: Kernel<P>, m: Mixed<P>, pi: nat, pos: nat, n: nat)
    requires Stereo(k) && pi < |m.parts| && |m.mix| == 2 * n
    ensures var r, s := FastPart(k, m, pi, pos, n), Sum(k, m.parts[pi], 0, pos, n);
            r.parts == m.parts[pi := s.0] && r.mix == if pi == 0 then s.1 else Plus(m.mix, s.1)
  {
    var p := m.parts[pi];
    if pi == 0 {
      VoicesWrite(k, p, m.mix, 0, pos, n);
    } else if PartActive(k, p) {
      VoicesAdd(k, p, m.mix, 0, pos, n, true, false);
    } else {
      IdleIsSilent(k, p, 0, pos, n);
      PlusSilence(m.mix, n);
      assert m.parts[pi := p] == m.parts;
    }
  }

  lemma TotalGrows<P(!new)>(k: Kernel<P>, parts: seq<P>, p: nat, upto: nat, pos: nat, n: nat, mix: seq<real>, mix': seq<real>)
    requires Stereo(k) && upto == p + 1 <= |parts| && |mix| == 2 * n
    requires p > 0 ==> IsTotal(k, parts, p, pos, n, mix)
    requires mix' == if p == 0 then Sum(k, parts[p], 0, pos, n).1 else Plus(mix, Sum(k, parts[p], 0, pos, n).1)
    ensures IsTotal(k, parts, upto, pos, n, mix')
  {
  }

  /** The fast path: every part advanced once, and the main mix is the sum over all parts. */
  lemma {:induction false} FastIsTotal<P(!new)>(k: Kernel<P>, m: Mixed<P>, upto: nat, pos: nat, n: nat)
    requires Stereo(k) && upto <= |m.parts| && |m.mix| == 2 * n
    ensures var r := Fast(k, m, upto, pos, n);
            Advanced(k, m.parts, r.parts, upto, pos, n) && (upto > 0 ==> IsTotal(k, m.parts, upto, pos, n, r.mix))
  {
    if upto > 0 {
      var p := upto - 1;
      FastIsTotal(k, m, p, pos, n);
      var f := Fast(k, m, p, pos, n);
      FastPartAdds(k, f, p, pos, n);
      TotalGrows(k, m.parts, p, upto, pos, n, f.mix, FastPart(k, f, p, pos, n).mix);
    }
  }

  /** The per-part renderer with the main mix: the same sum, whatever parts have slots of their own. */
  lemma SplitIsTotal<P(!new)>(k: Kernel<P>, m: Split<P>, upto: nat, pos: nat, n: nat, own: set<nat>, junk: seq<real>)
    requires Stereo(k) && upto <= |m.parts| && |m.mix| == 2 * n && |junk| == 2 * n && !m.written
    ensures var r := SplitAll(k, m, upto, pos, n, true, own, junk);
            && Advanced(k, m.parts, r.parts, upto, pos, n)
            && (r.written <==> upto > 0) && (upto > 0 ==> IsTotal(k, m.parts, upto, pos, n, r.mix))
  {
    var f := Mixed(m.parts, m.mix);
    AllAgree(k, f, m, upto, pos, n, own, junk);
    FastIsTotal(k, f, upto, pos, n);
  }

  // ---------------- a segment of output slots ----------------

  /** The parts that have been scratched are among those visited. */
  lemma {:induction false} ScratchVisited<P(!new)>(k: Kernel<P>, m: Split<P>, upto: nat, pos: nat, n: nat, main: bool,
        own: set<nat>, junk: seq<real>, pi: nat)
    requires Stereo(k) && upto <= |m.parts| && |m.mix| == 2 * n && |junk| == 2 * n && m.scr == map[]
    requires pi in SplitAll(k, m, upto, pos, n, main, own, junk).scr
    ensures pi < upto
  {
    if upto > 0 && pi != upto - 1 {
      ScratchVisited(k, m, upto - 1, pos, n, main, own, junk, pi);
    }
  }

  /** Without the main mix, a part without slots of its own stays as it was. */
  lemma {:induction false} UnaskedStays<P(!new)>(k: Kernel<P>, m: Split<P>, upto: nat, pos: nat, n: nat,
        own: set<nat>, junk: seq<real>, pi: nat)
    requires Stereo(k) && upto <= |m.parts| && |m.mix| == 2 * n && |junk| == 2 * n && pi < |m.parts| && pi !in own
    ensures SplitAll(k, m, upto, pos, n, false, own, junk).parts[pi] == m.parts[pi]
  {
    if upto > 0 {
      UnaskedStays(k, m, upto - 1, pos, n, own, junk, pi);
    }
  }

  /** The sample an output slot must carry in frame `i`: the sum of all parts, or the channel of one part,
      or nothing for a part that does not exist. */
  ghost function SlotValue<P(!new)>(k: Kernel<P>, e: seq<P>, slot: nat, pos: nat, n: nat, i: nat): real
    requires Stereo(k) && i < n
  {
    if slot < 2 then TotalAt(k, e, |e|, pos, n, i * 2 + slot)
    else if (slot - 2) / 2 < |e| then Sum(k, e[(slot - 2) / 2], 0, pos, n).1[i * 2 + slot % 2]
    else 0.0
  }

  lemma SlotIs<P(!new)>(k: Kernel<P>, slots: seq<nat>, e: seq<P>, pos: nat, n: nat, m: Split<P>, mix: seq<real>, s: nat, i: nat)
    requires Stereo(k) && s < |slots| && i < n && |mix| == n * 2
    requires m == SplitAll(k, Split(e, Silence(n), false, map[]), |e|, pos, n, WantsMain(slots), Owners(slots), Silence(n))
    requires WantsMain(slots) ==> IsTotal(k, e, |e|, pos, n, mix)
    ensures SlotSample(slots[s], mix, m.scr, i, n) == SlotValue(k, e, slots[s], pos, n, i)
  {
    var slot, m0 := slots[s], Split(e, Silence(n), false, map[]);
    if slot < 2 {
      assert WantsMain(slots);
    } else {
      var part := (slot - 2) / 2;
      assert part in Owners(slots);
      if part < |e| {
        AdvancedOnce(k, m0, |e|, pos, n, WantsMain(slots), Owners(slots), Silence(n), part);
      } else if part in m.scr {
        ScratchVisited(k, m0, |e|, pos, n, WantsMain(slots), Owners(slots), Silence(n), part);
      }
    }
  }

  lemma MixOf<P(!new)>(k: Kernel<P>, slots: seq<nat>, e: seq<P>, pos: nat, n: nat, m: Split<P>)
    requires Stereo(k) && WantsMain(slots)
    requires m == SplitAll(k, Split(e, Silence(n), false, map[]), |e|, pos, n, true, Owners(slots), Silence(n))
    ensures IsTotal(k, e, |e|, pos, n, if m.written then m.mix else Silence(n))
  {
    SplitIsTotal(k, Split(e, Silence(n), false, map[]), |e|, pos, n, Owners(slots), Silence(n));
  }

  /** Every sample of a segment of output slots, whatever the slots asked for, in any order and number. */
  lemma SlotsAre<P(!new)>(k: Kernel<P>, slots: seq<nat>, e: seq<P>, pos: nat, n: nat, s: nat, i: nat)
    requires Stereo(k) && s < |slots| && i < n
    ensures At(SlotsSegment(k, slots, e, pos, n).1, |slots|, s, i, n) == SlotValue(k, e, slots[s], pos, n, i)
  {
    var m := SplitAll(k, Split(e, Silence(n), false, map[]), |e|, pos, n, WantsMain(slots), Owners(slots), Silence(n));
    var mix := if m.written then m.mix else Silence(n);
    if WantsMain(slots) {
      MixOf(k, slots, e, pos, n, m);
    }
    SlotIs(k, slots, e, pos, n, m, mix, s, i);
    PackedIs(slots, mix, m.scr, n, s, i, i * |slots| + s);
  }

  /** The engine after it: a part is advanced, once, exactly when the main mix or its own slots ask for it. */
  lemma SlotsAdvance<P(!new)>(k: Kernel<P>, slots: seq<nat>, e: seq<P>, pos: nat, n: nat, pi: nat)
    requires Stereo(k) && slots != [] && pi < |e|
    ensures |SlotsSegment(k, slots, e, pos, n).0| == |e|
    ensures SlotsSegment(k, slots, e, pos, n).0[pi]
      == if WantsMain(slots) || pi in Owners(slots) then Sum(k, e[pi], 0, pos, n).0 else e[pi]
  {
    var m0 := Split(e, Silence(n), false, map[]);
    AdvancedOnce(k, m0, |e|, pos, n, WantsMain(slots), Owners(slots), Silence(n), pi);
    if !WantsMain(slots) && pi !in Owners(slots) {
      UnaskedStays(k, m0, |e|, pos, n, Owners(slots), Silence(n), pi);
    }
  }

  /** The stereo segment of the fast path: the sum of all parts, each advanced once. */
  lemma FastIs<P(!new)>(k: Kernel<P>, e: seq<P>, pos: nat, n: nat)
    requires Stereo(k)
    ensures Advanced(k, e, FastSegment(k, e, pos, n).0, |e|, pos, n)
    ensures IsTotal(k, e, |e|, pos, n, FastSegment(k, e, pos, n).1)
  {
    FastIsTotal(k, Mixed(e, Silence(n)), |e|, pos, n);
  }
}
