/** The segment renderers in place: voices into a shared buffer, parts updated one by one. */
module MixLoops {
  import opened Modular
  import opened Sizes
  import opened Mix
  import opened MixBlock

  /** Write or add a rendered segment into the buffer. */
  method Deposit(out: array<real>, s: seq<real>, add: bool)
    requires out.Length == |s|
    modifies out
    ensures out[..] == if add then Plus(old(out[..]), s) else s
  {
    ghost var before := out[..];
    for i := 0 to |s|
      invariant forall j :: 0 <= j < i ==> out[j] == if add then before[j] + s[j] else s[j]
      invariant forall j :: i <= j < |s| ==> out[j] == before[j]
    {
      out[i] := if add then out[i] + s[i] else s[i];
    }
    assert out[..] == if add then Plus(before, s) else s;
  }

  /** Render a part's voices in index order, reclaiming the ones that have decayed. */
  method RenderPartVoices<P(!new)>(k: Kernel<P>, p: P, out: array<real>, n: nat, pos: nat,
        accumulate: bool) returns (q: P)
    requires Stereo(k) && out.Length == 2 * n
    modifies out
    ensures (q, out[..]) == Voices(k, p, old(out[..]), 0, pos, n, accumulate, false)
  {
    ghost var total := Voices(k, p, out[..], 0, pos, n, accumulate, false);
    var wrote := false;
    q := p;
    for vi := 0 to NVOICES
      invariant Voices(k, q, out[..], vi, pos, n, accumulate, wrote) == total
    {
      if k.active(q, vi) {
        var r := k.render(q, vi, pos, n);
        Deposit(out, r.1, wrote || accumulate);
        wrote := true;
        q := k.reclaim(r.0, vi);
      }
    }
    if !wrote && !accumulate {
      Deposit(out, Silence(n), false);
    }
  }

  /** The fast path: part 0 writes the segment, active parts add to it. */
  method RenderMain<P(!new)>(k: Kernel<P>, parts: seq<P>, out: array<real>, n: nat, pos: nat) returns (after: seq<P>)
    requires Stereo(k) && out.Length == 2 * n
    modifies out
    ensures Mixed(after, out[..]) == Fast(k, Mixed(parts, old(out[..])), |parts|, pos, n)
  {
    ghost var m0 := Mixed(parts, out[..]);
    ghost var m := m0;
    after := parts;
    for pi := 0 to |parts|
      invariant |after| == |parts| && m == Mixed(after, out[..]) && m == Fast(k, m0, pi, pos, n)
    {
      m := FastPart(k, m, pi, pos, n);
      if pi == 0 || PartActive(k, after[pi]) {
        var q := RenderPartVoices(k, after[pi], out, n, pos, pi != 0);
        after := after[pi := q];
      }
    }
  }

  /** One part of the per-part path: rendered once into the scratch, then into the mix and its slots. */
  method RenderOne<P(!new)>(k: Kernel<P>, p: P, pscr: array<real>, mix: array<real>, n: nat, pos: nat,
        inMix: bool, written: bool) returns (q: P)
    requires Stereo(k) && pscr.Length == 2 * n && mix.Length == 2 * n && pscr != mix
    modifies pscr, mix
    ensures (q, pscr[..]) == Voices(k, p, Silence(n), 0, pos, n, false, false)
    ensures mix[..] == if inMix then if written then Plus(old(mix[..]), pscr[..]) else pscr[..] else old(mix[..])
  {
    VoicesWrite(k, p, pscr[..], 0, pos, n);
    VoicesWrite(k, p, Silence(n), 0, pos, n);
    q := RenderPartVoices(k, p, pscr, n, pos, false);
    if inMix {
      Deposit(mix, pscr[..], written);
    }
  }

  method RenderSlots<P(!new)>(k: Kernel<P>, parts: seq<P>, pscr: array<real>, mix: array<real>, n: nat, pos: nat,
        main: bool, own: set<nat>)
    returns (after: seq<P>, written: bool, scr: map<nat, seq<real>>)
    requires Stereo(k) && pscr.Length == 2 * n && mix.Length == 2 * n && pscr != mix
    modifies pscr, mix
    ensures Split(after, mix[..], written, scr)
         == SplitAll(k, Split(parts, old(mix[..]), false, map[]), |parts|, pos, n, main, own, Silence(n))
  {
    ghost var m0 := Split(parts, mix[..], false, map[]);
    ghost var m := m0;
    after, written, scr := parts, false, map[];
    for pi := 0 to |parts|
      invariant |after| == |parts| && m == Split(after, mix[..], written, scr)
      invariant m == SplitAll(k, m0, pi, pos, n, main, own, Silence(n))
    {
      m := SplitPart(k, m, pi, pos, n, main, own, Silence(n));
      var inMix := main && (pi == 0 || PartActive(k, after[pi]));
      if inMix || pi in own {
        var q := RenderOne(k, after[pi], pscr, mix, n, pos, inMix, written);
        after := after[pi := q];
        written := written || inMix;
        if pi in own { scr := scr[pi := pscr[..]]; }
      }
    }
  }

  // ---------------- packing the output slots ----------------

  /** The samples `p`, as far as columns before `s` and rows before `i` of column `s`; the rest as it was. */
  ghost predicate PackedTo(seg: seq<real>, before: seq<real>, p: seq<real>, width: nat, s: nat, i: nat)
    requires width > 0
  {
    && |seg| == |before| == |p|
    && forall j :: 0 <= j < |p| ==> seg[j] == if Reached(j, width, s, i) then p[j] else before[j]
  }

  ghost predicate Reached(j: nat, width: nat, s: nat, i: nat)
    requires width > 0
  {
    j % width < s || (j % width == s && j / width < i)
  }

  lemma ReachedNext(x: nat, width: nat, s: nat, i: nat, j: nat)
    requires s < width && j == i * width + s
    ensures Reached(x, width, s, i + 1) <==> Reached(x, width, s, i) || x == j
  {
    ModUnique(j, i, s, width);
    assert x == width * (x / width) + x % width;
    assert width * i == i * width;
  }

  lemma PackNext(seg: seq<real>, before: seq<real>, p: seq<real>, width: nat, s: nat, i: nat, j: nat)
    requires s < width && PackedTo(seg, before, p, width, s, i) && j == i * width + s < |p|
    ensures PackedTo(seg[j := p[j]], before, p, width, s, i + 1)
  {
    forall x | 0 <= x < |p| ensures Reached(x, width, s, i + 1) <==> Reached(x, width, s, i) || x == j {
      ReachedNext(x, width, s, i, j);
    }
  }

  lemma PackColumn(seg: seq<real>, before: seq<real>, p: seq<real>, width: nat, s: nat, n: nat)
    requires width > 0 && |p| == n * width && PackedTo(seg, before, p, width, s, n)
    ensures PackedTo(seg, before, p, width, s + 1, 0)
  {
    forall x | 0 <= x < |p| ensures Reached(x, width, s + 1, 0) <==> Reached(x, width, s, n) {
      InRow(x, width, n);
    }
  }

  lemma PackDone(seg: seq<real>, before: seq<real>, p: seq<real>, width: nat)
    requires width > 0 && PackedTo(seg, before, p, width, width, 0)
    ensures seg == p
  {
    forall x | 0 <= x < |p| ensures Reached(x, width, width, 0) {
    }
  }

  /** One output column of a segment that lies between `pre` and `post` in the block. */
  method PackSlot(slots: seq<nat>, s: nat, mix: seq<real>, scr: map<nat, seq<real>>, n: nat, out: array<real>,
        ghost pre: seq<real>, ghost seg: seq<real>, ghost post: seq<real>, base: nat, ghost before: seq<real>,
        ghost p: seq<real>) returns (ghost seg': seq<real>)
    requires s < |slots| && |mix| == n * 2 && p == Packed(slots, mix, scr, n) && base == |pre|
    requires out[..] == pre + seg + post && PackedTo(seg, before, p, |slots|, s, 0)
    modifies out
    ensures out[..] == pre + seg' + post && PackedTo(seg', before, p, |slots|, s + 1, 0)
  {
    var width := |slots|;
    seg' := seg;
    for i := 0 to n
      invariant out[..] == pre + seg' + post && PackedTo(seg', before, p, width, s, i)
    {
      var j := i * width + s;
      PackedIs(slots, mix, scr, n, s, i, j);
      PackNext(seg', before, p, width, s, i, j);
      out[base + j] := SlotSample(slots[s], mix, scr, i, n);
      seg' := seg'[j := p[j]];
    }
    PackColumn(seg', before, p, width, s, n);
  }

  /** All output columns of a segment, in the interleaved block at `base`. */
  method PackSegment(slots: seq<nat>, mix: seq<real>, scr: map<nat, seq<real>>, n: nat, out: array<real>, base: nat)
    requires slots != [] && |mix| == n * 2 && base + n * |slots| <= out.Length
    modifies out
    ensures out[..] == old(out[..base]) + Packed(slots, mix, scr, n) + old(out[base + n * |slots|..])
  {
    ghost var p := Packed(slots, mix, scr, n);
    ghost var pre, seg, post := out[..base], out[base..base + |p|], out[base + |p|..];
    ghost var before := seg;
    assert out[..] == pre + seg + post;
    for s := 0 to |slots|
      invariant out[..] == pre + seg + post && PackedTo(seg, before, p, |slots|, s, 0)
    {
      seg := PackSlot(slots, s, mix, scr, n, out, pre, seg, post, base, before, p);
    }
    PackDone(seg, before, p, |slots|);
  }

  /** A whole segment of the per-part path: render, guard an unwritten mix, pack. */
  method RenderSlotsSegment<P(!new)>(k: Kernel<P>, parts: seq<P>, slots: seq<nat>, pscr: array<real>, mix: array<real>,
        out: array<real>, base: nat, n: nat, pos: nat) returns (after: seq<P>)
    requires Stereo(k) && slots != [] && pscr.Length == mix.Length == 2 * n
    requires pscr != mix && out != mix && out != pscr && base + n * |slots| <= out.Length
    modifies pscr, mix, out
    ensures var r := SlotsSegment(k, slots, parts, pos, n);
            after == r.0 && out[..] == old(out[..base]) + r.1 + old(out[base + n * |slots|..])
  {
    Deposit(mix, Silence(n), false);
    var written, scr;
    after, written, scr := RenderSlots(k, parts, pscr, mix, n, pos, WantsMain(slots), Owners(slots));
    if !written {
      Deposit(mix, Silence(n), false);
    }
    PackSegment(slots, mix[..], scr, n, out, base);
  }
}
