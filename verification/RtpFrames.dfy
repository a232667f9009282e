/** Wide audio frames over RTP: a frame of more than eight slots is split into column groups that
    share the frame's timestamp, and the receiver scatters them back, whatever their order; a group
    that never arrives leaves silence in its columns. */
module RtpFrames {
  import opened Modular

  const GROUP_SLOTS: nat := 8
  const REASM_SLOTS: nat := 34
  const REASM_NS: nat := 256
  const REASM_SIZE: nat := 8704

  /** Columns [off, off + cnt) of a frame `total` slots wide, row by row. */
  datatype Group = Group(ts: nat, off: nat, cnt: nat, total: nat, data: seq<real>)

  datatype Frame = Frame(ts: nat, slots: nat, ns: nat, samples: seq<real>)

  ghost predicate Wide(f: Frame)
  {
    0 < f.slots <= REASM_SLOTS && 0 < f.ns <= REASM_NS && |f.samples| == f.ns * f.slots
  }

  lemma CellFits(ns: nat, width: nat)
    requires ns <= REASM_NS && width <= REASM_SLOTS
    ensures ns * width <= REASM_SIZE
  {
    assert (REASM_NS - ns) * width >= 0;
  }

  // ---------------- splitting ----------------

  function Cnt(slots: nat, off: nat): nat
    requires off <= slots
  {
    if slots - off > GROUP_SLOTS then GROUP_SLOTS else slots - off
  }

  /** One column group, gathered row by row. */
  function Gathered(f: Frame, off: nat): (g: Group)
    requires |f.samples| == f.ns * f.slots && off < f.slots
    ensures |g.data| == f.ns * g.cnt
  {
    var cnt := Cnt(f.slots, off);
    Group(f.ts, off, cnt, f.slots, seq(f.ns * cnt, k requires 0 <= k < f.ns * cnt => Cell(f, off, cnt, k)))
  }

  function Cell(f: Frame, off: nat, cnt: nat, k: nat): real
    requires |f.samples| == f.ns * f.slots && 0 < cnt && off + cnt <= f.slots && k < f.ns * cnt
  {
    InRow(k, cnt, f.ns);
    RowFits(k / cnt, off + k % cnt, f.slots, f.ns);
    f.samples[(k / cnt) * f.slots + (off + k % cnt)]
  }

  /** The groups from column `off` on. */
  function Split(f: Frame, off: nat): seq<Group>
    requires |f.samples| == f.ns * f.slots
    decreases f.slots - off
  {
    if off >= f.slots then [] else [Gathered(f, off)] + Split(f, off + GROUP_SLOTS)
  }

  // ---------------- reassembly ----------------

  datatype Reasm = Reasm(valid: bool, ts: nat, total: nat, ns: nat, buf: seq<real>)

  datatype Flush = Nothing | Flushed(ts: nat, out: seq<real>)

  function BlankFrame(): (b: seq<real>)
    ensures |b| == REASM_SIZE
  {
    seq(REASM_SIZE, i => 0.0)
  }

  /** What a scatter leaves at index `i`. */
  function Scattered(buf: seq<real>, g: Group, ns: nat, i: nat): real
    requires i < |buf| && 0 < g.cnt && 0 < g.total && ns * g.cnt <= |g.data|
  {
    if i < ns * g.total && g.off <= i % g.total < g.off + g.cnt then
      InRow(i, g.total, ns);
      RowFits(i / g.total, i % g.total - g.off, g.cnt, ns);
      g.data[(i / g.total) * g.cnt + (i % g.total - g.off)]
    else buf[i]
  }

  function Scatter(buf: seq<real>, g: Group, ns: nat): (r: seq<real>)
    requires 0 < g.cnt && 0 < g.total && ns * g.cnt <= |g.data|
    ensures |r| == |buf|
    ensures forall i :: 0 <= i < |buf| ==> r[i] == Scattered(buf, g, ns, i)
  {
    seq(|buf|, i requires 0 <= i < |buf| => Scattered(buf, g, ns, i))
  }

  predicate Acceptable(g: Group)
  {
    && g.cnt != 0 && g.total != 0 && g.total <= REASM_SLOTS && g.off + g.cnt <= g.total
    && 0 < |g.data| / g.cnt <= REASM_NS
  }

  function Rows(g: Group): (ns: nat)
    requires g.cnt != 0
    ensures ns * g.cnt <= |g.data|
  {
    |g.data| / g.cnt
  }

  /** One received group: flush on a new timestamp, start a silent frame if none is open, scatter. */
  function Accept(r: Reasm, g: Group, maxFloats: nat): (x: (Reasm, Flush))
    requires |r.buf| == REASM_SIZE
    ensures |x.0.buf| == REASM_SIZE
  {
    if !Acceptable(g) then (r, Nothing)
    else
      var ns := Rows(g);
      var flush := r.valid && g.ts != r.ts;
      var out := if flush then Flushed(r.ts, Contents(r, maxFloats)) else Nothing;
      var open := if r.valid && !flush then r else Reasm(true, g.ts, g.total, ns, BlankFrame());
      (if g.total == open.total && ns == open.ns then open.(buf := Scatter(open.buf, g, ns)) else open, out)
  }

  /** What a flush hands over. */
  function Contents(r: Reasm, maxFloats: nat): seq<real>
    requires |r.buf| == REASM_SIZE
  {
    var n := r.ns * r.total;
    var n := if n > maxFloats then maxFloats else n;
    r.buf[..if n > REASM_SIZE then REASM_SIZE else n]
  }

  function AcceptAll(r: Reasm, gs: seq<Group>, maxFloats: nat): (x: Reasm)
    requires |r.buf| == REASM_SIZE
    ensures |x.buf| == REASM_SIZE
    decreases |gs|
  {
    if gs == [] then r else Accept(AcceptAll(r, gs[..|gs| - 1], maxFloats), gs[|gs| - 1], maxFloats).0
  }
}
