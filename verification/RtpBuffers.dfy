/** The two ends of the wide-frame path as they work in place: the device gathers each column group
    into a buffer, the host scatters groups into its reassembly buffer. */
module RtpBuffers {
  import opened Modular
  import opened RtpFrames

  /** The device's split: the groups in column order, and the advanced sequence counter. */
  method EmitGroups(f: Frame, seq0: nat) returns (groups: seq<Group>, seq1: nat)
    requires |f.samples| == f.ns * f.slots
    ensures groups == Split(f, 0) && seq1 == (seq0 + |groups|) % 0x1_0000
  {
    var off := 0;
    groups, seq1 := [], seq0 % 0x1_0000;
    while off < f.slots
      invariant groups + Split(f, off) == Split(f, 0)
      invariant seq1 == (seq0 + |groups|) % 0x1_0000
      decreases f.slots - off
    {
      var g := EmitGroup(f, off);
      SplitFront(groups, f, off, g);
      NextSeq(seq0 + |groups|);
      seq1 := (seq1 + 1) % 0x1_0000;
      groups := groups + [g];
      off := off + GROUP_SLOTS;
    }
  }

  lemma SplitFront(groups: seq<Group>, f: Frame, off: nat, g: Group)
    requires |f.samples| == f.ns * f.slots && off < f.slots && g == Gathered(f, off)
    ensures groups + [g] + Split(f, off + GROUP_SLOTS) == groups + Split(f, off)
  {
  }

  lemma NextSeq(n: nat)
    ensures (n % 0x1_0000 + 1) % 0x1_0000 == (n + 1) % 0x1_0000
  {
  }

  method EmitGroup(f: Frame, off: nat) returns (g: Group)
    requires |f.samples| == f.ns * f.slots && off < f.slots
    ensures g == Gathered(f, off)
  {
    var cnt := Cnt(f.slots, off);
    var gf := Gather(f, off, cnt);
    g := Group(f.ts, off, cnt, f.slots, gf);
  }

  /** The first `done` gathered values are in place. */
  ghost predicate GatheredTo(grp: seq<real>, f: Frame, off: nat, cnt: nat, done: nat)
    requires |f.samples| == f.ns * f.slots && 0 < cnt && off + cnt <= f.slots
  {
    && |grp| == f.ns * cnt && done <= |grp|
    && forall k :: 0 <= k < done ==> grp[k] == Cell(f, off, cnt, k)
  }

  lemma GatherCell(grp: seq<real>, f: Frame, off: nat, cnt: nat, s: nat, c: nat, k: nat, from: nat)
    requires |f.samples| == f.ns * f.slots && 0 < cnt && off + cnt <= f.slots && s < f.ns && c < cnt
    requires k == s * cnt + c && from == s * f.slots + (off + c) && GatheredTo(grp, f, off, cnt, k)
    ensures k < |grp| && from < |f.samples| && GatheredTo(grp[k := f.samples[from]], f, off, cnt, k + 1)
  {
    RowFits(s, c, cnt, f.ns);
    RowFits(s, off + c, f.slots, f.ns);
    RowCol(s, c, cnt);
  }

  lemma NextRow(s: nat, width: nat)
    ensures (s + 1) * width == s * width + width
  {
  }

  method GatherRow(f: Frame, off: nat, cnt: nat, grp: array<real>, s: nat)
    requires |f.samples| == f.ns * f.slots && 0 < cnt && off + cnt <= f.slots && s < f.ns
    requires GatheredTo(grp[..], f, off, cnt, s * cnt)
    modifies grp
    ensures GatheredTo(grp[..], f, off, cnt, s * cnt + cnt)
  {
    var to, row := s * cnt, s * f.slots;
    for c := 0 to cnt
      invariant GatheredTo(grp[..], f, off, cnt, to + c)
    {
      GatherCell(grp[..], f, off, cnt, s, c, to + c, row + (off + c));
      ghost var next := grp[..][to + c := f.samples[row + (off + c)]];
      grp[to + c] := f.samples[row + (off + c)];
      assert grp[..] == next;
    }
  }

  method Gather(f: Frame, off: nat, cnt: nat) returns (gf: seq<real>)
    requires |f.samples| == f.ns * f.slots && off < f.slots && cnt == Cnt(f.slots, off)
    ensures gf == Gathered(f, off).data
  {
    var grp := new real[f.ns * cnt];
    ghost var to := 0;
    for s := 0 to f.ns
      invariant to == s * cnt && GatheredTo(grp[..], f, off, cnt, to)
    {
      GatherRow(f, off, cnt, grp, s);
      NextRow(s, cnt);
      to := to + cnt;
    }
    gf := grp[..];
  }

  /** Between the end of one row's band and the start of the next nothing is written. */
  lemma Gap(i: nat, s: nat, g: Group, ns: nat)
    requires 0 < g.cnt && g.off + g.cnt <= g.total && s < ns
    requires s * g.total + (g.off + g.cnt) <= i < (s + 1) * g.total + g.off
    ensures !(i < ns * g.total && g.off <= i % g.total < g.off + g.cnt)
  {
    var width := g.total;
    assert (s + 1) * width == s * width + width;
    if i < (s + 1) * width {
      RowCol(s, i - s * width, width);
    } else {
      RowCol(s + 1, i - (s + 1) * width, width);
    }
  }

  /** Everything before `done` has been scattered, nothing after it. */
  ghost predicate ScatteredTo(buf: seq<real>, before: seq<real>, g: Group, ns: nat, done: nat)
    requires 0 < g.cnt && 0 < g.total && ns * g.cnt <= |g.data|
  {
    && |buf| == |before|
    && forall i :: 0 <= i < |buf| ==> buf[i] == if i < done then Scattered(before, g, ns, i) else before[i]
  }

  lemma ScatterCell(buf: seq<real>, before: seq<real>, g: Group, ns: nat, s: nat, c: nat, at: nat, k: nat)
    requires 0 < g.cnt && g.off + g.cnt <= g.total && ns * g.cnt <= |g.data| && s < ns && c < g.cnt
    requires at == s * g.total + (g.off + c) && at < |buf| && k == s * g.cnt + c
    requires ScatteredTo(buf, before, g, ns, at)
    ensures k < |g.data| && ScatteredTo(buf[at := g.data[k]], before, g, ns, at + 1)
  {
    RowCol(s, g.off + c, g.total);
    RowFits(s, g.off + c, g.total, ns);
    RowFits(s, c, g.cnt, ns);
    assert Scattered(before, g, ns, at) == g.data[k];
  }

  lemma ScatterRow(buf: seq<real>, before: seq<real>, g: Group, ns: nat, s: nat, done: nat, next: nat)
    requires 0 < g.cnt && g.off + g.cnt <= g.total && ns * g.cnt <= |g.data| && s < ns
    requires done == s * g.total + (g.off + g.cnt) && next == (s + 1) * g.total + g.off
    requires ScatteredTo(buf, before, g, ns, done)
    ensures ScatteredTo(buf, before, g, ns, next)
  {
    assert (s + 1) * g.total == s * g.total + g.total;
    forall i | 0 <= i < |buf| && done <= i < next ensures Scattered(before, g, ns, i) == before[i] {
      Gap(i, s, g, ns);
    }
  }

  lemma ScatterStarts(buf: seq<real>, g: Group, ns: nat)
    requires 0 < g.cnt && g.off + g.cnt <= g.total && ns * g.cnt <= |g.data|
    ensures ScatteredTo(buf, buf, g, ns, g.off)
  {
    forall i | 0 <= i < |buf| && i < g.off ensures Scattered(buf, g, ns, i) == buf[i] {
      RowCol(0, i, g.total);
    }
  }

  lemma ScatterEnds(buf: seq<real>, before: seq<real>, g: Group, ns: nat, done: nat)
    requires 0 < g.cnt && 0 < g.total && ns * g.cnt <= |g.data| && done == ns * g.total + g.off
    requires ScatteredTo(buf, before, g, ns, done)
    ensures buf == Scatter(before, g, ns)
  {
  }

  class Reassembler {
    const reasm: array<real>
    var valid: bool
    var ts: nat
    var total: nat
    var ns: nat

    ghost predicate Valid()
      reads this
    {
      reasm.Length == REASM_SIZE
    }

    ghost function State(): Reasm
      requires Valid()
      reads this, reasm
    {
      Reasm(valid, ts, total, ns, reasm[..])
    }

    constructor ()
      ensures Valid() && fresh(reasm) && !valid
    {
      reasm := new real[REASM_SIZE](_ => 0.0);
      valid, ts, total, ns := false, 0, 0, 0;
    }

    /** One row of the copy. */
    method CopyRow(g: Group, rows: nat, s: nat, ghost before: seq<real>)
      requires Valid() && 0 < g.cnt && g.off + g.cnt <= g.total && rows * g.cnt <= |g.data|
      requires s < rows && rows * g.total <= REASM_SIZE
      requires ScatteredTo(reasm[..], before, g, rows, s * g.total + g.off)
      modifies reasm
      ensures ScatteredTo(reasm[..], before, g, rows, s * g.total + (g.off + g.cnt))
    {
      var row, from := s * g.total, s * g.cnt;
      for c := 0 to g.cnt
        invariant ScatteredTo(reasm[..], before, g, rows, row + (g.off + c))
      {
        RowFits(s, g.off + c, g.total, rows);
        var at := row + (g.off + c);
        ScatterCell(reasm[..], before, g, rows, s, c, at, from + c);
        ghost var next := reasm[..][at := g.data[from + c]];
        reasm[at] := g.data[from + c];
        assert reasm[..] == next;
      }
    }

    /** Copy the group's columns into the frame. */
    method ScatterInto(g: Group, rows: nat)
      requires Valid() && 0 < g.cnt && g.off + g.cnt <= g.total && rows * g.cnt <= |g.data|
      requires rows * g.total <= REASM_SIZE
      modifies reasm
      ensures reasm[..] == Scatter(old(reasm[..]), g, rows)
    {
      ghost var before := reasm[..];
      ScatterStarts(before, g, rows);
      ghost var row := 0;
      for s := 0 to rows
        invariant row == s * g.total && ScatteredTo(reasm[..], before, g, rows, row + g.off)
      {
        CopyRow(g, rows, s, before);
        NextRow(s, g.total);
        ScatterRow(reasm[..], before, g, rows, s, row + (g.off + g.cnt), row + g.total + g.off);
        row := row + g.total;
      }
      ScatterEnds(reasm[..], before, g, rows, row + g.off);
    }

    /** A fresh, silent frame. */
    method Open(g: Group, rows: nat)
      requires Valid()
      modifies this, reasm
      ensures Valid() && State() == Reasm(true, g.ts, g.total, rows, BlankFrame())
    {
      forall i | 0 <= i < REASM_SIZE { reasm[i] := 0.0; }
      assert reasm[..] == BlankFrame();
      valid, ts, total, ns := true, g.ts, g.total, rows;
    }

    method Receive(g: Group, maxFloats: nat) returns (flushed: Flush)
      requires Valid()
      modifies this, reasm
      ensures Valid() && (State(), flushed) == Accept(old(State()), g, maxFloats)
    {
      flushed := Nothing;
      if !Acceptable(g) { return; }
      var rows := |g.data| / g.cnt;
      if valid && g.ts != ts {
        var n := ns * total;
        if n > maxFloats { n := maxFloats; }
        if n > REASM_SIZE { n := REASM_SIZE; }
        flushed := Flushed(ts, reasm[..n]);
        assert reasm[..][..n] == reasm[..n];
        valid := false;
      }
      if !valid {
        Open(g, rows);
      }
      if g.total == total && rows == ns {
        CellFits(rows, g.total);
        ScatterInto(g, rows);
      }
    }
  }
}
