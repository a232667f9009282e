/** The device's pacing loop over buffered endpoint reads: whatever pieces the bytes arrive in, the
    headers, fences, demultiplexed input columns and rendered ranges are those of the whole stream. */
module PacedReader {
  import opened Octets
  import opened Modular
  import opened PacedStream

  function Concat(chunks: seq<seq<byte>>): seq<byte>
  {
    if chunks == [] then [] else chunks[0] + Concat(chunks[1..])
  }

  // ---------------- input columns ----------------

  /** Bytes per planar input column. */
  const COLUMN: nat := 4096

  /** Where the payload byte at `off` goes, in rows of `stride` bytes, when column `lo` is the first one
      kept. */
  function Place(off: nat, stride: nat, lo: nat): nat
    requires stride > 0 && lo * 4 <= off % stride
  {
    DivNonNegative(off, stride);
    ((off % stride) / 4 - lo) * COLUMN + ((off / stride) * 4 + off % stride % 4)
  }

  /** The byte at `off` belongs to one of the `cols` columns from `lo` on. */
  predicate InColumns(off: nat, stride: nat, lo: nat, cols: nat)
    requires stride > 0
  {
    lo * 4 <= off % stride < (lo + cols) * 4
  }

  /** The payload bytes before `upto` that belong to the kept columns are in place. */
  ghost predicate Filled(fx: seq<byte>, payload: seq<byte>, stride: nat, lo: nat, cols: nat, upto: nat)
    requires stride > 0 && upto <= |payload|
  {
    forall off :: 0 <= off < upto && InColumns(off, stride, lo, cols) ==>
      Place(off, stride, lo) < |fx| && fx[Place(off, stride, lo)] == payload[off]
  }

  lemma PlaceInRange(off: nat, stride: nat, lo: nat, cols: nat)
    requires stride > 0 && InColumns(off, stride, lo, cols) && off / stride < MAX_NSAMPLES
    ensures Place(off, stride, lo) < cols * COLUMN
  {
    var col := (off % stride) / 4 - lo;
    assert col < cols;
    assert (off / stride) * 4 + off % stride % 4 < COLUMN;
    MulMonotone(col + 1, cols, COLUMN);
  }

  /** Different payload bytes have different places. */
  lemma PlacesDiffer(a: nat, b: nat, stride: nat, lo: nat)
    requires stride > 0 && a != b && 0 <= a / stride < MAX_NSAMPLES && 0 <= b / stride < MAX_NSAMPLES
    requires lo * 4 <= a % stride && lo * 4 <= b % stride
    ensures Place(a, stride, lo) != Place(b, stride, lo)
  {
    var sa, ra, sb, rb := a / stride, a % stride, b / stride, b % stride;
    assert a == stride * sa + ra && b == stride * sb + rb;
    if Place(a, stride, lo) == Place(b, stride, lo) {
      Unplace(ra, sa, rb, sb, lo);
    }
  }

  lemma Unplace(ra: nat, sa: nat, rb: nat, sb: nat, lo: nat)
    requires sa < MAX_NSAMPLES && sb < MAX_NSAMPLES
    requires (ra / 4 - lo) * COLUMN + (sa * 4 + ra % 4) == (rb / 4 - lo) * COLUMN + (sb * 4 + rb % 4)
    ensures ra == rb && sa == sb
  {
    var x, y := sa * 4 + ra % 4, sb * 4 + rb % 4;
    assert x < COLUMN && y < COLUMN;
    SmallMultiple(COLUMN, ra / 4 - rb / 4);
    assert x == y;
  }

  lemma FillOne(fx: seq<byte>, payload: seq<byte>, stride: nat, lo: nat, cols: nat, upto: nat, rows: nat)
    requires stride > 0 && upto < |payload| && |payload| == stride * rows && rows <= MAX_NSAMPLES
    requires |fx| >= cols * COLUMN && Filled(fx, payload, stride, lo, cols, upto)
    ensures !InColumns(upto, stride, lo, cols) ==> Filled(fx, payload, stride, lo, cols, upto + 1)
    ensures InColumns(upto, stride, lo, cols) ==>
              && Place(upto, stride, lo) < |fx|
              && Filled(fx[Place(upto, stride, lo) := payload[upto]], payload, stride, lo, cols, upto + 1)
  {
    if InColumns(upto, stride, lo, cols) {
      InRow(upto, stride, rows);
      PlaceInRange(upto, stride, lo, cols);
      var fx' := fx[Place(upto, stride, lo) := payload[upto]];
      forall off | 0 <= off < upto + 1 && InColumns(off, stride, lo, cols)
        ensures Place(off, stride, lo) < |fx'| && fx'[Place(off, stride, lo)] == payload[off]
      {
        if off < upto {
          InRow(off, stride, rows);
          PlacesDiffer(off, upto, stride, lo);
        }
      }
    }
  }

  /** Byte `b` of sample `s` in planar column `c` is that of the interleaved sample s * slots + lo + c. */
  ghost predicate Matches(fx: seq<byte>, payload: seq<byte>, slots: nat, lo: nat, c: nat, s: nat, b: nat)
  {
    var i, k := c * COLUMN + (s * 4 + b), (s * slots + (lo + c)) * 4 + b;
    i < |fx| && k < |payload| && fx[i] == payload[k]
  }

  ghost predicate Demuxed(fx: seq<byte>, payload: seq<byte>, slots: nat, n: nat, lo: nat, cols: nat)
  {
    forall c, s, b :: 0 <= c < cols && 0 <= s < n && 0 <= b < 4 ==> Matches(fx, payload, slots, lo, c, s, b)
  }

  lemma FilledIsDemuxed(fx: seq<byte>, payload: seq<byte>, slots: nat, n: nat, lo: nat, cols: nat)
    requires slots > 0 && |payload| == slots * n * 4 && lo + cols <= slots
    requires Filled(fx, payload, slots * 4, lo, cols, |payload|)
    ensures Demuxed(fx, payload, slots, n, lo, cols)
  {
    forall c, s, b | 0 <= c < cols && 0 <= s < n && 0 <= b < 4 ensures Matches(fx, payload, slots, lo, c, s, b) {
      CellOf(fx, payload, slots, n, lo, cols, c, s, b, (s * slots + (lo + c)) * 4 + b);
    }
  }

  lemma CellOf(fx: seq<byte>, payload: seq<byte>, slots: nat, n: nat, lo: nat, cols: nat, c: nat, s: nat, b: nat,
        off: nat)
    requires slots > 0 && |payload| == slots * n * 4 && lo + cols <= slots
    requires Filled(fx, payload, slots * 4, lo, cols, |payload|)
    requires c < cols && s < n && b < 4 && off == (s * slots + (lo + c)) * 4 + b
    ensures Matches(fx, payload, slots, lo, c, s, b)
  {
    CellAt(slots * 4, slots, n, lo + c, s, b, off);
    PlaceOf(off, slots * 4, lo, cols, c, s, b);
  }

  lemma PlaceOf(off: nat, stride: nat, lo: nat, cols: nat, c: nat, s: nat, b: nat)
    requires stride > 0 && off / stride == s && off % stride == (lo + c) * 4 + b && b < 4 && c < cols
    ensures InColumns(off, stride, lo, cols) && Place(off, stride, lo) == c * COLUMN + (s * 4 + b)
  {
  }

  lemma CellAt(stride: nat, slots: nat, n: nat, c: nat, s: nat, b: nat, off: nat)
    requires stride == slots * 4 && c < slots && s < n && b < 4 && off == (s * slots + c) * 4 + b
    ensures off < slots * n * 4 && off / stride == s && off % stride == c * 4 + b
  {
    assert off == stride * s + (c * 4 + b);
    ModUnique(off, s, c * 4 + b, stride);
    MulMonotone(s + 1, n, stride);
    assert stride * (s + 1) == stride * s + stride;
    assert slots * n * 4 == stride * n;
  }

  // ---------------- the buffered reader ----------------

  class Reader {
    var chunks: seq<seq<byte>>
    var rbuf: seq<byte>
    var rpos: nat

    /** The endpoint delivers at least one byte per read until it ends. */
    ghost predicate Valid()
      reads this
    {
      rpos <= |rbuf| && forall i :: 0 <= i < |chunks| ==> chunks[i] != []
    }

    /** Every byte still to come: buffered, then unread. */
    ghost function Rest(): seq<byte>
      requires Valid()
      reads this
    {
      rbuf[rpos..] + Concat(chunks)
    }

    constructor (chunks: seq<seq<byte>>)
      requires forall i :: 0 <= i < |chunks| ==> chunks[i] != []
      ensures Valid() && Rest() == Concat(chunks)
    {
      this.chunks, rbuf, rpos := chunks, [], 0;
    }

    /** The next read, into an exhausted buffer. */
    method Fill() returns (ok: bool)
      requires Valid() && rpos == |rbuf|
      modifies this
      ensures Valid() && Rest() == old(Rest())
      ensures ok ==> rpos < |rbuf| && |chunks| < |old(chunks)|
      ensures !ok ==> Rest() == []
    {
      if chunks == [] { return false; }
      rbuf, rpos, chunks := chunks[0], 0, chunks[1..];
      ok := true;
    }

    /** At most `max` bytes from the buffer, refilled when it is exhausted; nothing at the end. */
    method Some(max: nat) returns (piece: seq<byte>)
      requires Valid() && max > 0
      modifies this
      ensures Valid() && |piece| <= max && piece + Rest() == old(Rest())
      ensures piece == [] ==> Rest() == []
    {
      if rpos == |rbuf| {
        var more := Fill();
        if !more { return []; }
      }
      var take := |rbuf| - rpos;
      if take > max { take := max; }
      piece := rbuf[rpos..rpos + take];
      rpos := rpos + take;
    }

    /** Exactly `n` bytes, across as many reads as it takes. */
    method Take(n: nat) returns (ok: bool, out: seq<byte>)
      requires Valid()
      modifies this
      ensures Valid() && ok == (|old(Rest())| >= n)
      ensures ok ==> out == old(Rest())[..n] && Rest() == old(Rest())[n..]
    {
      ghost var all := Rest();
      out := [];
      while |out| < n
        invariant Valid() && |out| <= n && out + Rest() == all
        decreases n - |out|
      {
        var piece := Some(n - |out|);
        if piece == [] { return false, out; }
        PaddedCut(out, piece, Rest(), all, n);
        out := out + piece;
      }
      ok := true;
    }

    /** One payload byte, placed when its column is kept. */
    method Demux(byte_: byte, off: nat, stride: nat, lo: nat, cols: nat, fx: array<byte>,
          ghost payload: seq<byte>, ghost rows: nat)
      requires stride > 0 && off < |payload| && |payload| == stride * rows && rows <= MAX_NSAMPLES && byte_ == payload[off]
      requires fx.Length >= cols * COLUMN && Filled(fx[..], payload, stride, lo, cols, off)
      modifies fx
      ensures Filled(fx[..], payload, stride, lo, cols, off + 1)
    {
      var inrow, smp := off % stride, off / stride;
      FillOne(fx[..], payload, stride, lo, cols, off, rows);
      if lo * 4 <= inrow < (lo + cols) * 4 {
        ghost var next := fx[..][Place(off, stride, lo) := byte_];
        fx[(inrow / 4 - lo) * COLUMN + (smp * 4 + inrow % 4)] := byte_;
        assert fx[..] == next;
      }
    }

    /** A piece of a payload, byte by byte. */
    method DemuxPiece(piece: seq<byte>, pcur: nat, stride: nat, lo: nat, cols: nat, fx: array<byte>,
          ghost payload: seq<byte>, ghost rows: nat)
      requires stride > 0 && pcur + |piece| <= |payload| && |payload| == stride * rows && rows <= MAX_NSAMPLES
      requires payload[pcur..pcur + |piece|] == piece
      requires fx.Length >= cols * COLUMN && Filled(fx[..], payload, stride, lo, cols, pcur)
      modifies fx
      ensures Filled(fx[..], payload, stride, lo, cols, pcur + |piece|)
    {
      for i := 0 to |piece|
        invariant Filled(fx[..], payload, stride, lo, cols, pcur + i)
      {
        assert piece[i] == payload[pcur..pcur + |piece|][i];
        Demux(piece[i], pcur + i, stride, lo, cols, fx, payload, rows);
      }
    }

    /** A payload of `len` bytes: consumed whole, its first `cols` columns placed in `fx` when `on`, and
        column `col` in `lpb` when `keep`. */
    method TakePayload(len: nat, stride: nat, cols: nat, on: bool, fx: array<byte>, col: nat, keep: bool,
          lpb: array<byte>, ghost rows: nat) returns (ok: bool, payload: seq<byte>)
      requires Valid() && fx != lpb && fx.Length >= cols * COLUMN && lpb.Length == COLUMN
      requires on || keep ==> stride > 0 && len == stride * rows && rows <= MAX_NSAMPLES
      modifies this, fx, lpb
      ensures Valid() && ok == (|old(Rest())| >= len)
      ensures ok ==> payload == old(Rest())[..len] && Rest() == old(Rest())[len..]
      ensures ok && on ==> Filled(fx[..], payload, stride, 0, cols, len)
      ensures ok && keep ==> Filled(lpb[..], payload, stride, col, 1, len)
    {
      ghost var all := Rest();
      ghost var whole := Padded(all, len);
      payload := [];
      while |payload| < len
        invariant Valid() && |payload| <= len && payload + Rest() == all
        invariant on ==> Filled(fx[..], whole, stride, 0, cols, |payload|)
        invariant keep ==> Filled(lpb[..], whole, stride, col, 1, |payload|)
        decreases len - |payload|
      {
        var piece := Some(len - |payload|);
        if piece == [] { return false, payload; }
        PaddedCut(payload, piece, Rest(), all, len);
        if keep {
          DemuxPiece(piece, |payload|, stride, col, 1, lpb, whole, rows);
        }
        if on {
          DemuxPiece(piece, |payload|, stride, 0, cols, fx, whole, rows);
        }
        payload := payload + piece;
      }
      ok := true;
    }

    /** The next frame: header, fence, payload with its wanted input columns. */
    method NextFrame(cols: nat, fx: array<byte>, loop: Loop, lpb: array<byte>) returns (f: Front)
      requires Valid() && fx != lpb && fx.Length == cols * COLUMN && lpb.Length == COLUMN
      modifies this, fx, lpb
      ensures Valid() && f == FrontOf(old(Rest()))
      ensures f.Whole? ==> Rest() == old(Rest())[f.len..]
      ensures f.Whole? ==> InputOk(Input(fx[..], lpb[..]), cols, loop, f.h.slots, f.h.nsamples, f.payload)
    {
      ghost var all := Rest();
      var ok, hdr := Take(HDR_LEN);
      if !ok { return Cut(Ended); }
      var h := Decode(hdr);
      if !Acceptable(h) { return Cut(Malformed); }
      var fence, at := NoFence, HDR_LEN;
      if Fenced(h) {
        var got, fb := Take(FENCE_LEN);
        if !got { return Cut(Ended); }
        fence, at := Fence(Number(fb)), HDR_LEN + FENCE_LEN;
        AfterFence(all, fb);
      }
      var got, payload := FramePayload(h, cols, fx, loop, lpb);
      AfterPayload(all, at, payload, PayloadLen(h), got);
      if !got { return Cut(Ended); }
      if h.nsamples > MAX_NSAMPLES { return Cut(Oversize); }
      f := Whole(h, fence, payload, at + PayloadLen(h));
    }

    method FramePayload(h: Header, cols: nat, fx: array<byte>, loop: Loop, lpb: array<byte>)
      returns (ok: bool, payload: seq<byte>)
      requires Valid() && fx != lpb && fx.Length == cols * COLUMN && lpb.Length == COLUMN
      modifies this, fx, lpb
      ensures Valid() && ok == (|old(Rest())| >= PayloadLen(h))
      ensures ok ==> payload == old(Rest())[..PayloadLen(h)] && Rest() == old(Rest())[PayloadLen(h)..]
      ensures ok && h.nsamples <= MAX_NSAMPLES ==>
        InputOk(Input(fx[..], lpb[..]), cols, loop, h.slots, h.nsamples, payload)
    {
      var fits := h.slots > 0 && h.nsamples <= MAX_NSAMPLES;
      var on, keep := fits && cols > 0, fits && Keeps(loop, h.slots);
      var wanted, col := Wanted(cols, h.slots), if loop.Loop? then loop.col else 0;
      MulMonotone(wanted, cols, COLUMN);
      PayloadRows(h);
      ok, payload := TakePayload(PayloadLen(h), h.slots * 4, wanted, on, fx, col, keep, lpb, h.nsamples);
      if ok && on {
        FilledIsDemuxed(fx[..], payload, h.slots, h.nsamples, 0, wanted);
      }
      if ok && keep {
        FilledIsDemuxed(lpb[..], payload, h.slots, h.nsamples, col, 1);
      }
    }

    /** The pacing loop: the accepted frames with the input each was given, and why it stopped. The
        loopback is armed or not frame by frame. */
    method PacingLoop(cols: nat, fx: array<byte>, loops: nat -> Loop, lpb: array<byte>)
      returns (frames: seq<Frame>, inputs: seq<Input>, stop: Stop)
      requires Valid() && fx != lpb && fx.Length == cols * COLUMN && lpb.Length == COLUMN
      modifies this, fx, lpb
      ensures Run(frames, stop) == Parse(old(Rest()), 0)
      ensures |inputs| == |frames| && InputsOk(frames, inputs, cols, loops)
    {
      ghost var total := Parse(Rest(), 0);
      var cursor := 0;
      frames, inputs := [], [];
      while true
        invariant Valid() && Continues(frames, Rest(), cursor, total)
        invariant |inputs| == |frames| && InputsOk(frames, inputs, cols, loops)
        decreases |Rest()|
      {
        ghost var s := Rest();
        var f := NextFrame(cols, fx, loops(|frames|), lpb);
        if f.Cut? {
          ContinuesEnd(frames, s, cursor, total);
          return frames, inputs, f.stop;
        }
        ContinuesOn(frames, s, cursor, total, f);
        frames := frames + [FrameOf(f, cursor)];
        inputs := inputs + [Input(fx[..], lpb[..])];
        cursor := CursorAfter(f, cursor);
      }
    }
  }

  // ---------------- the digital loopback ----------------

  /** The position of the looped input slot among the declared ones, when the loop is armed. */
  datatype Loop = NoLoop | Loop(col: nat)

  predicate Keeps(loop: Loop, slots: nat)
  {
    loop.Loop? && loop.col < slots
  }

  /** The four bytes of sample `s` of the kept column are those the host sent in that column. */
  lemma KeptWord(lpb: seq<byte>, payload: seq<byte>, slots: nat, n: nat, col: nat, s: nat, at: nat)
    requires Demuxed(lpb, payload, slots, n, col, 1) && s < n && at == (s * slots + col) * 4
    ensures s * 4 + 4 <= |lpb| && at + 4 <= |payload| && lpb[s * 4..s * 4 + 4] == payload[at..at + 4]
  {
    assert Matches(lpb, payload, slots, col, 0, s, 0) && Matches(lpb, payload, slots, col, 0, s, 1);
    assert Matches(lpb, payload, slots, col, 0, s, 2) && Matches(lpb, payload, slots, col, 0, s, 3);
    assert slots * s == s * slots;
  }

  /** Rows before `s` carry the kept samples in column `col`; everything else is as it was. */
  ghost predicate Copied<T>(out: seq<T>, before: seq<T>, kept: seq<T>, slots: nat, col: nat, s: nat)
    requires 0 < slots && |out| == |before| && s <= |kept|
  {
    forall k :: 0 <= k < |out| ==>
      out[k] == if k % slots == col && 0 <= k / slots < s then kept[k / slots] else before[k]
  }

  lemma CopyNext<T>(out: seq<T>, before: seq<T>, kept: seq<T>, slots: nat, col: nat, s: nat, at: nat, out': seq<T>)
    requires col < slots && |out| == |before| && s < |kept| && at == s * slots + col < |out|
    requires Copied(out, before, kept, slots, col, s) && out' == out[at := kept[s]]
    ensures Copied(out', before, kept, slots, col, s + 1)
  {
    forall k | 0 <= k < |out'|
      ensures out'[k] == if k % slots == col && 0 <= k / slots < s + 1 then kept[k / slots] else before[k]
    {
      ModUnique(at, s, col, slots);
      if k % slots == col && k / slots == s {
        assert k == slots * (k / slots) + k % slots;
      }
    }
  }

  /** Overwrite one column of the rendered block with the kept one, sample by sample. */
  method CopyColumn<T>(out: array<T>, kept: seq<T>, slots: nat, n: nat, col: nat)
    requires col < slots && out.Length == n * slots && n <= |kept|
    modifies out
    ensures Copied(out[..], old(out[..]), kept, slots, col, n)
  {
    ghost var before := out[..];
    for s := 0 to n
      invariant Copied(out[..], before, kept, slots, col, s)
    {
      MulMonotone(s + 1, n, slots);
      assert slots * (s + 1) == s * slots + slots;
      var at := s * slots + col;
      ghost var next := out[..][at := kept[s]];
      CopyNext(out[..], before, kept, slots, col, s, at, next);
      out[at] := kept[s];
      assert out[..] == next;
    }
  }

  function Wanted(cols: nat, slots: nat): nat
  {
    if cols <= slots then cols else slots
  }

  /** What a frame's payload left behind: the planar input columns and the kept loopback column. */
  datatype Input = Input(fx: seq<byte>, lpb: seq<byte>)

  ghost predicate InputOk(x: Input, cols: nat, loop: Loop, slots: nat, n: nat, payload: seq<byte>)
  {
    && (cols > 0 && slots > 0 ==> Demuxed(x.fx, payload, slots, n, 0, Wanted(cols, slots)))
    && (Keeps(loop, slots) ==> Demuxed(x.lpb, payload, slots, n, loop.col, 1))
  }

  ghost predicate InputsOk(frames: seq<Frame>, inputs: seq<Input>, cols: nat, loops: nat -> Loop)
    requires |inputs| == |frames|
  {
    forall k :: 0 <= k < |frames| ==>
      InputOk(inputs[k], cols, loops(k), frames[k].slots, frames[k].n, frames[k].payload)
  }

  lemma PayloadRows(h: Header)
    ensures PayloadLen(h) == h.slots * 4 * h.nsamples == h.slots * h.nsamples * 4
  {
  }

  lemma AfterFence(all: seq<byte>, fb: seq<byte>)
    requires |all| >= HDR_LEN && |all[HDR_LEN..]| >= FENCE_LEN && fb == all[HDR_LEN..][..FENCE_LEN]
    ensures fb == all[HDR_LEN..HDR_LEN + FENCE_LEN] && all[HDR_LEN..][FENCE_LEN..] == all[HDR_LEN + FENCE_LEN..]
  {
  }

  lemma AfterPayload(all: seq<byte>, at: nat, payload: seq<byte>, len: nat, got: bool)
    requires at <= |all| && got == (|all[at..]| >= len) && (got ==> payload == all[at..][..len])
    ensures got == (|all| >= at + len)
    ensures got ==> payload == all[at..at + len] && all[at..][len..] == all[at + len..]
  {
  }

  /** What is left of the stream completes the run. */
  ghost predicate Continues(frames: seq<Frame>, s: seq<byte>, cursor: nat, total: Run)
  {
    var r := Parse(s, cursor);
    total == Run(frames + r.frames, r.stop)
  }

  lemma ContinuesEnd(frames: seq<Frame>, s: seq<byte>, cursor: nat, total: Run)
    requires Continues(frames, s, cursor, total) && FrontOf(s).Cut?
    ensures total == Run(frames, FrontOf(s).stop)
  {
    assert frames + [] == frames;
  }

  lemma ContinuesOn(frames: seq<Frame>, s: seq<byte>, cursor: nat, total: Run, f: Front)
    requires Continues(frames, s, cursor, total) && f == FrontOf(s) && f.Whole?
    ensures Continues(frames + [FrameOf(f, cursor)], s[f.len..], CursorAfter(f, cursor), total)
  {
    ParseFront(s, cursor, f, s[f.len..]);
    var r := Parse(s[f.len..], CursorAfter(f, cursor));
    assert frames + ([FrameOf(f, cursor)] + r.frames) == frames + [FrameOf(f, cursor)] + r.frames;
  }

  /** The first `len` bytes of `all`, filled up with zeros when there are not so many. */
  ghost function Padded(all: seq<byte>, len: nat): (r: seq<byte>)
    ensures |r| == len
  {
    if |all| >= len then all[..len] else all + seq(len - |all|, i => 0)
  }

  lemma PaddedCut(done: seq<byte>, piece: seq<byte>, rest: seq<byte>, all: seq<byte>, len: nat)
    requires done + (piece + rest) == all && |done| + |piece| <= len
    ensures Padded(all, len)[|done|..|done| + |piece|] == piece
    ensures done + piece + rest == all
  {
  }
}
