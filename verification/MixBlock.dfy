/** Whole blocks: with the main mix among the requested output slots, the per-part renderer applies the
    same events, leaves the same engine and writes the same main-mix columns as the fast path. */
module MixBlock {
  import opened Events
  import opened Segments
  import opened Modular
  import opened Mix

  /** Event application, panics and arpeggiator steps, shared by both paths. */
  datatype Control<!P> = Control(
    apply: (seq<P>, Event, nat) -> seq<P>,
    fire: (seq<P>, nat) -> seq<P>,
    deadline: (seq<P>, nat) -> nat)

  ghost function FastSynth<P(!new)>(c: Control<P>, k: Kernel<P>): Synth<seq<P>>
    requires Stereo(k)
  {
    Synth(c.apply, c.fire, c.deadline, (e: seq<P>, pos: nat, n: nat) => FastSegment(k, e, pos, n))
  }

  ghost function FastSegment<P(!new)>(k: Kernel<P>, e: seq<P>, pos: nat, n: nat): (r: (seq<P>, seq<real>))
    requires Stereo(k)
    ensures |r.1| == n * 2
  {
    var m := Fast(k, Mixed(e, Silence(n)), |e|, pos, n);
    (m.parts, m.mix)
  }

  // ---------------- output slots ----------------

  /** Slots 0 and 1 are the main mix, 2 + 2k and 3 + 2k the left and right of part k. */
  predicate WantsMain(slots: seq<nat>)
  {
    exists s :: 0 <= s < |slots| && slots[s] < 2
  }

  function Owners(slots: seq<nat>): set<nat>
  {
    set s | 0 <= s < |slots| && slots[s] >= 2 :: (slots[s] - 2) / 2
  }

  /** The sample of one output slot in frame `i`. */
  function SlotSample(slot: nat, mix: seq<real>, scr: map<nat, seq<real>>, i: nat, n: nat): real
    requires i < n && |mix| == n * 2
  {
    if slot < 2 then mix[i * 2 + slot]
    else
      var part, at := (slot - 2) / 2, i * 2 + slot % 2;
      if part in scr && at < |scr[part]| then scr[part][at] else 0.0
  }

  function Packed(slots: seq<nat>, mix: seq<real>, scr: map<nat, seq<real>>, n: nat): (out: seq<real>)
    requires |mix| == n * 2 && slots != []
    ensures |out| == n * |slots|
  {
    seq(n * |slots|, j requires 0 <= j < n * |slots| =>
      (InRow(j, |slots|, n); SlotSample(slots[j % |slots|], mix, scr, j / |slots|, n)))
  }

  ghost function SlotsSegment<P(!new)>(k: Kernel<P>, slots: seq<nat>, e: seq<P>, pos: nat, n: nat): (r: (seq<P>,
        seq<real>))
    requires Stereo(k) && slots != []
    ensures |r.1| == n * |slots|
  {
    var m := SplitAll(k, Split(e, Silence(n), false, map[]), |e|, pos, n, WantsMain(slots), Owners(slots), Silence(n));
    (m.parts, Packed(slots, if m.written then m.mix else Silence(n), m.scr, n))
  }

  ghost function SlotsSynth<P(!new)>(c: Control<P>, k: Kernel<P>, slots: seq<nat>): Synth<seq<P>>
    requires Stereo(k) && slots != []
  {
    Synth(c.apply, c.fire, c.deadline, (e: seq<P>, pos: nat, n: nat) => SlotsSegment(k, slots, e, pos, n))
  }

  // ---------------- columns of an interleaved block ----------------

  /** Column `s` of `n` rows of `width` samples. */
  ghost predicate SameColumn(a: seq<real>, width: nat, s: nat, b: seq<real>, width': nat, s': nat, n: nat)
    requires s < width && s' < width' && |a| == n * width && |b| == n * width'
  {
    forall i :: 0 <= i < n ==> At(a, width, s, i, n) == At(b, width', s', i, n)
  }

  ghost function At(a: seq<real>, width: nat, s: nat, i: nat, n: nat): real
    requires s < width && i < n && |a| == n * width
  {
    RowFits(i, s, width, n);
    a[i * width + s]
  }

  lemma AtAppend(a: seq<real>, b: seq<real>, width: nat, s: nat, i: nat, n: nat, m: nat)
    requires s < width && |a| == n * width && |b| == m * width && i < n + m && |a + b| == (n + m) * width
    ensures At(a + b, width, s, i, n + m) == if i < n then At(a, width, s, i, n) else At(b, width, s, i - n, m)
  {
    RowFits(i, s, width, n + m);
    if i < n {
      RowFits(i, s, width, n);
    } else {
      RowFits(i - n, s, width, m);
      assert (i - n) * width == i * width - n * width;
    }
  }

  lemma Widths(n: nat, m: nat, width: nat)
    ensures n * width + m * width == (n + m) * width
  {
  }

  lemma ColumnAppend(a: seq<real>, a': seq<real>, width: nat, s: nat, b: seq<real>, b': seq<real>, width': nat,
        s': nat, n: nat, m: nat)
    requires s < width && s' < width' && |a| == n * width && |a'| == m * width && |b| == n * width' && |b'| == m * width'
    requires SameColumn(a, width, s, b, width', s', n) && SameColumn(a', width, s, b', width', s', m)
    ensures |a + a'| == (n + m) * width && |b + b'| == (n + m) * width'
    ensures SameColumn(a + a', width, s, b + b', width', s', n + m)
  {
    Widths(n, m, width);
    Widths(n, m, width');
    var x, y, rows := a + a', b + b', n + m;
    forall i | 0 <= i < rows ensures At(x, width, s, i, rows) == At(y, width', s', i, rows) {
      AtAppend(a, a', width, s, i, n, m);
      AtAppend(b, b', width', s', i, n, m);
    }
  }

  // ---------------- one segment ----------------

  lemma PackedAt(slots: seq<nat>, mix: seq<real>, scr: map<nat, seq<real>>, n: nat, s: nat, i: nat)
    requires |mix| == n * 2 && s < |slots| && slots[s] < 2 && i < n
    ensures At(Packed(slots, mix, scr, n), |slots|, s, i, n) == At(mix, 2, slots[s], i, n)
  {
    var width := |slots|;
    PackedIs(slots, mix, scr, n, s, i, i * width + s);
  }

  /** The packed sample of column `s` in frame `i`. */
  lemma PackedIs(slots: seq<nat>, mix: seq<real>, scr: map<nat, seq<real>>, n: nat, s: nat, i: nat, j: nat)
    requires |mix| == n * 2 && s < |slots| && i < n && j == i * |slots| + s
    ensures j < n * |slots| && Packed(slots, mix, scr, n)[j] == SlotSample(slots[s], mix, scr, i, n)
  {
    RowFits(i, s, |slots|, n);
    ModUnique(j, i, s, |slots|);
  }

  /** The main-mix columns and the engine after one segment. */
  lemma SegmentAgrees<P(!new)>(k: Kernel<P>, slots: seq<nat>, e: seq<P>, pos: nat, n: nat)
    requires Stereo(k) && slots != [] && WantsMain(slots)
    ensures var f, g := FastSegment(k, e, pos, n), SlotsSegment(k, slots, e, pos, n);
            && g.0 == f.0
            && forall s :: 0 <= s < |slots| && slots[s] < 2 ==> SameColumn(g.1, |slots|, s, f.1, 2, slots[s], n)
  {
    var own := Owners(slots);
    var m := SplitAll(k, Split(e, Silence(n), false, map[]), |e|, pos, n, true, own, Silence(n));
    AllAgree(k, Mixed(e, Silence(n)), Split(e, Silence(n), false, map[]), |e|, pos, n, own, Silence(n));
    var mix := if m.written then m.mix else Silence(n);
    forall s, i | 0 <= s < |slots| && slots[s] < 2 && 0 <= i < n
      ensures At(Packed(slots, mix, m.scr, n), |slots|, s, i, n) == At(mix, 2, slots[s], i, n)
    {
      PackedAt(slots, mix, m.scr, n, s, i);
    }
  }

  // ---------------- the block ----------------

  /** The two results agree on everything but the audio. */
  ghost predicate SameEngine<P>(f: Out<seq<P>>, g: Out<seq<P>>)
  {
    g.e == f.e && g.q == f.q && g.trace == f.trace && g.segs == f.segs && g.late == f.late && g.rampLate == f.rampLate
  }

  /** Every main-mix column of `g` is that of the stereo block `f`. */
  ghost predicate SameMain(f: seq<real>, g: seq<real>, slots: seq<nat>, n: nat)
  {
    && |f| == n * 2 && |g| == n * |slots|
    && forall s :: 0 <= s < |slots| && slots[s] < 2 ==> SameColumn(g, |slots|, s, f, 2, slots[s], n)
  }

  lemma StepAgrees<P(!new)>(c: Control<P>, k: Kernel<P>, slots: seq<nat>, e: seq<P>, q: seq<Event>, cur: nat,
        limit: nat)
    requires Stereo(k) && slots != [] && WantsMain(slots) && cur < limit
    ensures var f, g := SegStep(FastSynth(c, k), e, q, cur, limit), SegStep(SlotsSynth(c, k, slots), e, q, cur, limit);
            SameEngine(f, g) && SameMain(f.audio, g.audio, slots, f.segs[0].len)
  {
    var due := Before(q, cur + 1);
    ApplySame(FastSynth(c, k), SlotsSynth(c, k, slots), e, due, cur);
    var f := SegStep(FastSynth(c, k), e, q, cur, limit);
    var e' := c.fire(ApplyAll(FastSynth(c, k), e, due, cur), cur);
    SegmentAgrees(k, slots, e', cur, f.segs[0].len);
  }

  lemma {:induction false} ApplySame<E>(y: Synth<E>, z: Synth<E>, e: E, evs: seq<Event>, pos: nat)
    requires y.apply == z.apply
    ensures ApplyAll(y, e, evs, pos) == ApplyAll(z, e, evs, pos)
  {
    if evs != [] {
      ApplySame(y, z, e, evs[..|evs| - 1], pos);
    }
  }

  lemma MainAppend(f: seq<real>, g: seq<real>, f': seq<real>, g': seq<real>, slots: seq<nat>, n: nat, m: nat,
        total: nat)
    requires slots != [] && SameMain(f, g, slots, n) && SameMain(f', g', slots, m) && total == n + m
    ensures SameMain(f + f', g + g', slots, total)
  {
    Widths(n, m, 2);
    Widths(n, m, |slots|);
    forall s | 0 <= s < |slots| && slots[s] < 2 ensures SameColumn(g + g', |slots|, s, f + f', 2, slots[s], total) {
      ColumnAppend(g, g', |slots|, s, f, f', 2, slots[s], n, m);
    }
  }

  lemma {:induction false} BlockEngine<P(!new)>(c: Control<P>, k: Kernel<P>, slots: seq<nat>, e: seq<P>,
        q: seq<Event>, cur: nat, limit: nat)
    requires Stereo(k) && slots != [] && WantsMain(slots) && cur <= limit
    ensures SameEngine(Render(FastSynth(c, k), e, q, cur, limit), Render(SlotsSynth(c, k, slots), e, q, cur, limit))
    decreases limit - cur
  {
    var y, z := FastSynth(c, k), SlotsSynth(c, k, slots);
    if cur < limit {
      var f, g := SegStep(y, e, q, cur, limit), SegStep(z, e, q, cur, limit);
      var mid := SegEnd(f);
      StepAgrees(c, k, slots, e, q, cur, limit);
      BlockEngine(c, k, slots, f.e, f.q, mid, limit);
      RenderUnfold(y, e, q, cur, limit, f, mid);
      RenderUnfold(z, e, q, cur, limit, g, mid);
    }
  }

  lemma {:induction false} BlockMain<P(!new)>(c: Control<P>, k: Kernel<P>, slots: seq<nat>, e: seq<P>,
        q: seq<Event>, cur: nat, limit: nat, n: nat)
    requires Stereo(k) && slots != [] && WantsMain(slots) && limit == cur + n
    ensures SameMain(Render(FastSynth(c, k), e, q, cur, limit).audio,
                     Render(SlotsSynth(c, k, slots), e, q, cur, limit).audio, slots, n)
    decreases n
  {
    var y, z := FastSynth(c, k), SlotsSynth(c, k, slots);
    if n > 0 {
      var f, g := SegStep(y, e, q, cur, limit), SegStep(z, e, q, cur, limit);
      var len := f.segs[0].len;
      var mid, rest := SegEnd(f), n - len;
      assert SameEngine(f, g) && SameMain(f.audio, g.audio, slots, len) by { StepAgrees(c, k, slots, e, q, cur, limit); }
      BlockMain(c, k, slots, f.e, f.q, mid, limit, rest);
      MainJoin(y, z, slots, e, q, cur, limit, f, g, mid, len, rest, n);
    }
  }

  lemma MainJoin<E>(y: Synth<E>, z: Synth<E>, slots: seq<nat>, e: E, q: seq<Event>, cur: nat, limit: nat,
        f: Out<E>, g: Out<E>, mid: nat, len: nat, rest: nat, n: nat)
    requires slots != [] && cur < limit && f == SegStep(y, e, q, cur, limit) && g == SegStep(z, e, q, cur, limit)
    requires g.e == f.e && g.q == f.q && g.segs == f.segs && mid == SegEnd(f) && n == len + rest
    requires SameMain(f.audio, g.audio, slots, len)
    requires SameMain(Render(y, f.e, f.q, mid, limit).audio, Render(z, f.e, f.q, mid, limit).audio, slots, rest)
    ensures SameMain(Render(y, e, q, cur, limit).audio, Render(z, e, q, cur, limit).audio, slots, n)
  {
    MainAppend(f.audio, g.audio, Render(y, f.e, f.q, mid, limit).audio, Render(z, f.e, f.q, mid, limit).audio,
               slots, len, rest, n);
    RenderUnfold(y, e, q, cur, limit, f, mid);
    RenderUnfold(z, e, q, cur, limit, g, mid);
  }

  /** Over a whole block, with any events, deadlines and segmentation: same engine, same events at the
      same positions, same segments, same lateness, same main mix. */
  lemma BlockAgrees<P(!new)>(c: Control<P>, k: Kernel<P>, slots: seq<nat>, e: seq<P>, q: seq<Event>, pos: nat,
        n: nat, limit: nat)
    requires Stereo(k) && slots != [] && WantsMain(slots) && limit == pos + n
    ensures SameEngine(Render(FastSynth(c, k), e, q, pos, limit), Render(SlotsSynth(c, k, slots), e, q, pos, limit))
    ensures SameMain(Render(FastSynth(c, k), e, q, pos, limit).audio,
                     Render(SlotsSynth(c, k, slots), e, q, pos, limit).audio, slots, n)
  {
    BlockEngine(c, k, slots, e, q, pos, limit);
    BlockMain(c, k, slots, e, q, pos, limit, n);
  }
}
