/** Splitting and reassembling: the received frame is the sent one in the columns of the groups that
    arrived, and silent in the others. */
module RtpRoundTrip {
  import opened Modular
  import opened RtpFrames

  /** The groups of a frame are its column bands of eight. */
  lemma {:induction false} SplitBands(f: Frame, off: nat, j: nat)
    requires |f.samples| == f.ns * f.slots && j < |Split(f, off)|
    ensures off + GROUP_SLOTS * j < f.slots && Split(f, off)[j] == Gathered(f, off + GROUP_SLOTS * j)
    decreases j
  {
    if j > 0 {
      SplitBands(f, off + GROUP_SLOTS, j - 1);
    }
  }

  lemma {:induction false} SplitCount(f: Frame, off: nat)
    requires |f.samples| == f.ns * f.slots
    ensures off < f.slots ==> |Split(f, off)| == (f.slots - off + GROUP_SLOTS - 1) / GROUP_SLOTS
    decreases f.slots - off
  {
    if off < f.slots {
      SplitCount(f, off + GROUP_SLOTS);
    }
  }

  /** Gathering and scattering the same band is the identity there. */
  lemma CellBack(f: Frame, off: nat, i: nat, s: nat, c: nat)
    requires Wide(f) && off < f.slots && i < |f.samples|
    requires s == i / f.slots && off + c == i % f.slots && c < Cnt(f.slots, off)
    ensures var g := Gathered(f, off); s * g.cnt + c < |g.data| && g.data[s * g.cnt + c] == f.samples[i]
  {
    var cnt := Cnt(f.slots, off);
    InRow(i, f.slots, f.ns);
    RowFits(s, c, cnt, f.ns);
    RowCol(s, c, cnt);
    assert Gathered(f, off).data[s * cnt + c] == Cell(f, off, cnt, s * cnt + c);
  }

  lemma GatheredRows(f: Frame, off: nat)
    requires Wide(f) && off < f.slots
    ensures Acceptable(Gathered(f, off)) && Rows(Gathered(f, off)) == f.ns
  {
    RowCol(f.ns, 0, Gathered(f, off).cnt);
  }

  ghost predicate InBand(f: Frame, off: nat, i: nat)
    requires f.slots > 0 && off < f.slots
  {
    off <= i % f.slots < off + Cnt(f.slots, off)
  }

  /** What a scatter leaves inside its columns, and outside them. */
  lemma ScatterAt(buf: seq<real>, g: Group, ns: nat, size: nat, i: nat, s: nat, c: int, k: int)
    requires 0 < g.cnt && 0 < g.total && ns * g.cnt <= |g.data| && i < |buf| && size == ns * g.total
    requires s == i / g.total && c == i % g.total - g.off && k == s * g.cnt + c
    ensures i < size && 0 <= c < g.cnt ==> 0 <= k < |g.data| && Scatter(buf, g, ns)[i] == g.data[k]
    ensures !(i < size && 0 <= c < g.cnt) ==> Scatter(buf, g, ns)[i] == buf[i]
  {
    if i < size && 0 <= c < g.cnt {
      InRow(i, g.total, ns);
      RowFits(s, c, g.cnt, ns);
    }
    assert Scatter(buf, g, ns)[i] == Scattered(buf, g, ns, i);
  }

  lemma BandCell(f: Frame, off: nat, g: Group, buf: seq<real>, i: nat, s: nat, c: nat)
    requires Wide(f) && off < f.slots && g == Gathered(f, off) && i < |buf| && i < |f.samples|
    requires 0 < g.cnt && 0 < g.total && f.ns * g.cnt <= |g.data|
    requires s == i / f.slots && off + c == i % f.slots && c < g.cnt
    ensures Scatter(buf, g, f.ns)[i] == f.samples[i]
  {
    CellBack(f, off, i, s, c);
    ScatterAt(buf, g, f.ns, |f.samples|, i, s, c, s * g.cnt + c);
  }

  /** What a scattered band leaves in the buffer. */
  lemma BandScattered(f: Frame, off: nat, g: Group, buf: seq<real>, i: nat)
    requires Wide(f) && off < f.slots && g == Gathered(f, off) && i < |buf|
    requires 0 < g.cnt && 0 < g.total && f.ns * g.cnt <= |g.data|
    ensures Scatter(buf, g, f.ns)[i] == if i < |f.samples| && InBand(f, off, i) then f.samples[i] else buf[i]
  {
    if i < |f.samples| && InBand(f, off, i) {
      InRow(i, f.slots, f.ns);
      BandCell(f, off, g, buf, i, i / f.slots, i % f.slots - off);
    } else {
      ScatterKeeps(buf, g, f.ns, |f.samples|, i);
    }
  }

  lemma ScatterKeeps(buf: seq<real>, g: Group, ns: nat, size: nat, i: nat)
    requires 0 < g.cnt && 0 < g.total && ns * g.cnt <= |g.data| && i < |buf| && size == ns * g.total
    requires i >= size || !(g.off <= i % g.total < g.off + g.cnt)
    ensures Scatter(buf, g, ns)[i] == buf[i]
  {
    assert Scatter(buf, g, ns)[i] == Scattered(buf, g, ns, i);
  }

  // ---------------- any order, any subset ----------------

  ghost predicate Bands(f: Frame, offs: seq<nat>)
  {
    forall k :: 0 <= k < |offs| ==> offs[k] < f.slots
  }

  /** The groups that arrive, named by their first column, in arrival order. */
  function Arrivals(f: Frame, offs: seq<nat>): (gs: seq<Group>)
    requires |f.samples| == f.ns * f.slots && Bands(f, offs)
    ensures |gs| == |offs|
  {
    seq(|offs|, k requires 0 <= k < |offs| => Gathered(f, offs[k]))
  }

  ghost predicate Covered(f: Frame, offs: seq<nat>, i: nat)
    requires f.slots > 0 && Bands(f, offs)
  {
    exists k :: 0 <= k < |offs| && InBand(f, offs[k], i)
  }

  /** The frame in progress: sent samples where a group has arrived, silence elsewhere. */
  ghost predicate Progress(r: Reasm, f: Frame, offs: seq<nat>)
    requires Wide(f) && Bands(f, offs)
  {
    && r.valid && r.ts == f.ts && r.total == f.slots && r.ns == f.ns && |r.buf| == REASM_SIZE
    && forall i :: 0 <= i < REASM_SIZE ==> r.buf[i] == if i < |f.samples| && Covered(f, offs, i) then f.samples[i] else 0.0
  }

  lemma CoveredThen(f: Frame, offs: seq<nat>, i: nat)
    requires Wide(f) && offs != [] && Bands(f, offs)
    ensures Bands(f, offs[..|offs| - 1])
    ensures Covered(f, offs, i) <==> Covered(f, offs[..|offs| - 1], i) || InBand(f, offs[|offs| - 1], i)
  {
    var p := offs[..|offs| - 1];
    if Covered(f, p, i) {
      var k :| 0 <= k < |p| && InBand(f, p[k], i);
      assert InBand(f, offs[k], i);
    }
  }

  lemma ScatterProgress(f: Frame, offs: seq<nat>, buf: seq<real>, off: nat, i: nat)
    requires Wide(f) && offs != [] && Bands(f, offs) && off == offs[|offs| - 1] && |buf| == REASM_SIZE && i < REASM_SIZE
    requires Bands(f, offs[..|offs| - 1])
    requires buf[i] == if i < |f.samples| && Covered(f, offs[..|offs| - 1], i) then f.samples[i] else 0.0
    requires Acceptable(Gathered(f, off)) && Rows(Gathered(f, off)) == f.ns
    ensures Scatter(buf, Gathered(f, off), f.ns)[i] == if i < |f.samples| && Covered(f, offs, i) then f.samples[i] else 0.0
  {
    BandScattered(f, off, Gathered(f, off), buf, i);
    CoveredThen(f, offs, i);
  }

  lemma ProgressThen(r: Reasm, f: Frame, offs: seq<nat>, maxFloats: nat)
    requires Wide(f) && offs != [] && Bands(f, offs) && |r.buf| == REASM_SIZE
    requires if |offs| == 1 then !r.valid || r.ts != f.ts else Progress(r, f, offs[..|offs| - 1])
    ensures Progress(Accept(r, Gathered(f, offs[|offs| - 1]), maxFloats).0, f, offs)
  {
    var off := offs[|offs| - 1];
    var g := Gathered(f, off);
    GatheredRows(f, off);
    var buf := if |offs| == 1 then BlankFrame() else r.buf;
    var r' := Accept(r, g, maxFloats).0;
    assert r'.buf == Scatter(buf, g, f.ns);
    forall i | 0 <= i < REASM_SIZE ensures r'.buf[i] == if i < |f.samples| && Covered(f, offs, i) then f.samples[i] else 0.0 {
      ScatterProgress(f, offs, buf, off, i);
    }
  }

  lemma {:induction false} AllProgress(r: Reasm, f: Frame, offs: seq<nat>, maxFloats: nat)
    requires Wide(f) && offs != [] && Bands(f, offs) && |r.buf| == REASM_SIZE && (!r.valid || r.ts != f.ts)
    ensures Progress(AcceptAll(r, Arrivals(f, offs), maxFloats), f, offs)
    decreases |offs|
  {
    var p := offs[..|offs| - 1];
    assert Arrivals(f, offs)[..|offs| - 1] == Arrivals(f, p);
    if p != [] {
      AllProgress(r, f, p, maxFloats);
    } else {
      assert AcceptAll(r, Arrivals(f, p), maxFloats) == r;
    }
    ProgressThen(AcceptAll(r, Arrivals(f, p), maxFloats), f, offs, maxFloats);
  }

  /** Whatever groups of a frame arrive, in whatever order and however often, the next timestamp
      hands over the frame: the sent samples in the columns that arrived, zeros in all others. */
  lemma FrameComesBack(r: Reasm, f: Frame, offs: seq<nat>, next: Group, maxFloats: nat)
    requires Wide(f) && offs != [] && Bands(f, offs) && |r.buf| == REASM_SIZE && (!r.valid || r.ts != f.ts)
    requires Acceptable(next) && next.ts != f.ts && |f.samples| <= maxFloats
    ensures var got := Accept(AcceptAll(r, Arrivals(f, offs), maxFloats), next, maxFloats).1;
            && got.Flushed? && got.ts == f.ts && |got.out| == |f.samples|
            && forall i :: 0 <= i < |f.samples| ==> got.out[i] == if Covered(f, offs, i) then f.samples[i] else 0.0
  {
    AllProgress(r, f, offs, maxFloats);
    CellFits(f.ns, f.slots);
  }

  /** With every group of the split delivered, in any order, the frame is the original. */
  lemma NothingLost(r: Reasm, f: Frame, offs: seq<nat>, next: Group, maxFloats: nat)
    requires Wide(f) && Bands(f, offs) && |r.buf| == REASM_SIZE && (!r.valid || r.ts != f.ts)
    requires Acceptable(next) && next.ts != f.ts && |f.samples| <= maxFloats
    requires forall j :: 0 <= j < |Split(f, 0)| ==> Split(f, 0)[j].off in offs
    ensures Accept(AcceptAll(r, Arrivals(f, offs), maxFloats), next, maxFloats).1 == Flushed(f.ts, f.samples)
  {
    EveryColumn(f, offs, 0);
    FrameComesBack(r, f, offs, next, maxFloats);
    forall i | 0 <= i < |f.samples| ensures Covered(f, offs, i) {
      EveryColumn(f, offs, i);
    }
  }

  /** Some group of the split covers the column of `i`. */
  lemma EveryColumn(f: Frame, offs: seq<nat>, i: nat)
    requires Wide(f) && Bands(f, offs) && forall j :: 0 <= j < |Split(f, 0)| ==> Split(f, 0)[j].off in offs
    ensures offs != [] && Covered(f, offs, i)
  {
    var c := i % f.slots;
    var j := c / GROUP_SLOTS;
    SplitCount(f, 0);
    SplitBands(f, 0, j);
    var off := GROUP_SLOTS * j;
    assert off in offs;
    var k :| 0 <= k < |offs| && offs[k] == off;
    assert InBand(f, offs[k], i);
  }
}
