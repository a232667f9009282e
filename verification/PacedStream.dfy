/** The host-paced frame stream as a function of its bytes: headers, fences, input payloads and the
    ranges to render, with the cursor that discards rewound frames. */
module PacedStream {
  import opened Octets

  const HDR_LEN: nat := 20
  const FENCE_LEN: nat := 4
  const MAX_NSAMPLES: nat := 1024
  const WORD64: nat := 0x1_0000_0000_0000_0000

  datatype Header = Header(fver: byte, dirflags: byte, slots: nat, epoch: nat, ts: nat, nsamples: nat, fmt: nat)

  datatype Fence = NoFence | Fence(want: nat)

  /** One accepted frame; `rendered` is false for a frame behind the cursor. */
  datatype Frame = Frame(epoch: nat, ts: nat, slots: nat, n: nat, fence: Fence, payload: seq<byte>, rendered: bool)

  datatype Stop = Ended | Malformed | Oversize

  datatype Run = Run(frames: seq<Frame>, stop: Stop)

  // ---------------- headers ----------------

  function Decode(s: seq<byte>): Header
    requires |s| == HDR_LEN
  {
    Header(s[0], s[1], Number(s[2..4]), Number(s[4..8]), Number(s[8..16]), Number(s[16..18]), Number(s[18..20]))
  }

  predicate Acceptable(h: Header)
  {
    h.fver == 1 && h.fmt == 1 && h.nsamples != 0 && h.dirflags % 2 == 1
  }

  predicate Fenced(h: Header)
  {
    (h.dirflags / 4) % 2 == 1
  }

  function PayloadLen(h: Header): nat
  {
    h.slots * h.nsamples * 4
  }

  // ---------------- the whole stream ----------------

  /** The frame at the front of the stream, if it is all there. */
  datatype Front = Cut(stop: Stop) | Whole(h: Header, fence: Fence, payload: seq<byte>, len: nat)

  function FrontOf(s: seq<byte>): (f: Front)
    ensures f.Whole? ==> HDR_LEN <= f.len <= |s| && f.h.nsamples <= MAX_NSAMPLES
  {
    if |s| < HDR_LEN then Cut(Ended)
    else
      var h := Decode(s[..HDR_LEN]);
      if !Acceptable(h) then Cut(Malformed)
      else
        var at := if Fenced(h) then HDR_LEN + FENCE_LEN else HDR_LEN;
        if |s| < at + PayloadLen(h) then Cut(Ended)
        else if h.nsamples > MAX_NSAMPLES then Cut(Oversize)
        else
          Whole(h, if Fenced(h) then Fence(Number(s[HDR_LEN..at])) else NoFence, s[at..at + PayloadLen(h)], at + PayloadLen(h))
  }

  function FrameOf(f: Front, cursor: nat): Frame
    requires f.Whole?
  {
    Frame(f.h.epoch, f.h.ts, f.h.slots, f.h.nsamples, f.fence, f.payload, f.h.ts >= cursor)
  }

  /** The sample index past a range, in 64 bits. */
  function EndSsi(ts: nat, n: nat): nat
  {
    (ts + n) % WORD64
  }

  function CursorAfter(f: Front, cursor: nat): nat
    requires f.Whole?
  {
    if f.h.ts < cursor then cursor else EndSsi(f.h.ts, f.h.nsamples)
  }

  function Parse(s: seq<byte>, cursor: nat): Run
    decreases |s|
  {
    var f := FrontOf(s);
    if f.Cut? then Run([], f.stop)
    else
      var r := Parse(s[f.len..], CursorAfter(f, cursor));
      Run([FrameOf(f, cursor)] + r.frames, r.stop)
  }

  // ---------------- the ranges ----------------

  /** Frames are rendered exactly when they are not behind the cursor. */
  ghost predicate Advances(frames: seq<Frame>, cursor: nat)
    decreases |frames|
  {
    if frames == [] then true
    else
      var f := frames[0];
      && f.ts < WORD64 && (f.rendered <==> f.ts >= cursor)
      && Advances(frames[1..], if f.rendered then EndSsi(f.ts, f.n) else cursor)
  }

  lemma TimeBound(s: seq<byte>)
    requires |s| == HDR_LEN
    ensures Decode(s).ts < WORD64
  {
    NumberBound(s[8..16]);
    Powers();
  }

  lemma {:induction false} ParseAdvances(s: seq<byte>, cursor: nat)
    ensures Advances(Parse(s, cursor).frames, cursor)
    decreases |s|
  {
    var f := FrontOf(s);
    if f.Whole? {
      TimeBound(s[..HDR_LEN]);
      ParseAdvances(s[f.len..], CursorAfter(f, cursor));
      assert Parse(s, cursor).frames[1..] == Parse(s[f.len..], CursorAfter(f, cursor)).frames;
    }
  }

  /** Rendered ranges are disjoint and increasing. */
  ghost predicate Ordered(frames: seq<Frame>)
  {
    forall i, j :: 0 <= i < j < |frames| && frames[i].rendered && frames[j].rendered ==>
      frames[i].ts + frames[i].n <= frames[j].ts
  }

  /** No range that reaches the end of the 64-bit sample space is followed by another one. */
  ghost predicate WrapsLast(frames: seq<Frame>)
  {
    forall i, j :: 0 <= i < j < |frames| && frames[i].rendered && frames[j].rendered ==>
      frames[i].ts + frames[i].n < WORD64
  }

  lemma WrapsLastTail(frames: seq<Frame>)
    requires frames != [] && WrapsLast(frames)
    ensures WrapsLast(frames[1..])
  {
    var t := frames[1..];
    forall i, j | 0 <= i < j < |t| && t[i].rendered && t[j].rendered ensures t[i].ts + t[i].n < WORD64 {
      assert frames[i + 1].rendered && frames[j + 1].rendered;
    }
  }

  lemma {:induction false} NotBehind(frames: seq<Frame>, cursor: nat, j: nat)
    requires Advances(frames, cursor) && WrapsLast(frames) && j < |frames| && frames[j].rendered
    ensures frames[j].ts >= cursor
    decreases |frames|
  {
    if j > 0 {
      WrapsLastTail(frames);
      NotBehind(frames[1..], if frames[0].rendered then EndSsi(frames[0].ts, frames[0].n) else cursor, j - 1);
    }
  }

  lemma {:induction false} RangesApart(frames: seq<Frame>, cursor: nat, i: nat, j: nat)
    requires Advances(frames, cursor) && WrapsLast(frames)
    requires i < j < |frames| && frames[i].rendered && frames[j].rendered
    ensures frames[i].ts + frames[i].n <= frames[j].ts
    decreases |frames|
  {
    var next := if frames[0].rendered then EndSsi(frames[0].ts, frames[0].n) else cursor;
    WrapsLastTail(frames);
    if i == 0 {
      NotBehind(frames[1..], next, j - 1);
    } else {
      RangesApart(frames[1..], next, i - 1, j - 1);
    }
  }

  lemma {:induction false} TimesBounded(frames: seq<Frame>, cursor: nat, j: nat)
    requires Advances(frames, cursor) && j < |frames|
    ensures frames[j].ts < WORD64
    decreases |frames|
  {
    if j > 0 {
      TimesBounded(frames[1..], if frames[0].rendered then EndSsi(frames[0].ts, frames[0].n) else cursor, j - 1);
    }
  }

  /** The rendered ranges of a stream are disjoint and increasing exactly when no range that reaches
      the end of the 64-bit sample space is followed by another one. */
  lemma RangesDisjoint(s: seq<byte>)
    ensures Ordered(Parse(s, 0).frames) <==> WrapsLast(Parse(s, 0).frames)
  {
    var frames := Parse(s, 0).frames;
    ParseAdvances(s, 0);
    forall i, j | 0 <= i < j < |frames| && frames[i].rendered && frames[j].rendered
      ensures WrapsLast(frames) ==> frames[i].ts + frames[i].n <= frames[j].ts
      ensures frames[i].ts + frames[i].n <= frames[j].ts ==> frames[i].ts + frames[i].n < WORD64
    {
      TimesBounded(frames, 0, j);
      if WrapsLast(frames) {
        RangesApart(frames, 0, i, j);
      }
    }
  }

  // ---------------- the host's side ----------------

  function Encode(h: Header): (s: seq<byte>)
    ensures |s| == HDR_LEN
  {
    [h.fver, h.dirflags] + Bytes(h.slots, 2) + Bytes(h.epoch, 4) + Bytes(h.ts, 8) + Bytes(h.nsamples, 2) + Bytes(h.fmt, 2)
  }

  ghost predicate InRange(h: Header)
  {
    && h.slots < 0x1_0000 && h.epoch < 0x1_0000_0000 && h.ts < WORD64
    && h.nsamples < 0x1_0000 && h.fmt < 0x1_0000
  }

  lemma DecodeEncode(h: Header)
    requires InRange(h)
    ensures Decode(Encode(h)) == h
  {
    var s := Encode(h);
    var front := [h.fver, h.dirflags] + Bytes(h.slots, 2) + Bytes(h.epoch, 4) + Bytes(h.ts, 8);
    var ns, fmt := Bytes(h.nsamples, 2), Bytes(h.fmt, 2);
    assert s == (front + ns) + fmt;
    assert s[2..4] == Bytes(h.slots, 2) && s[4..8] == Bytes(h.epoch, 4) && s[8..16] == Bytes(h.ts, 8);
    assert s[18..20] == fmt && (front + ns)[16..18] == ns && s[16..18] == ns;
    Powers();
    NumberOfBytes(h.slots, 2);
    NumberOfBytes(h.epoch, 4);
    NumberOfBytes(h.ts, 8);
    NumberOfBytes(h.nsamples, 2);
    NumberOfBytes(h.fmt, 2);
  }

  /** A frame as the host sends it. */
  datatype Sent = Sent(h: Header, fence: Fence, payload: seq<byte>)

  ghost predicate Sendable(x: Sent)
  {
    && InRange(x.h) && Acceptable(x.h) && x.h.nsamples <= MAX_NSAMPLES && |x.payload| == PayloadLen(x.h)
    && (x.fence.Fence? <==> Fenced(x.h)) && (x.fence.Fence? ==> x.fence.want < 0x1_0000_0000)
  }

  function FenceBytes(f: Fence): (s: seq<byte>)
    ensures |s| == if f.Fence? then FENCE_LEN else 0
  {
    if f.Fence? then Bytes(f.want, FENCE_LEN) else []
  }

  function Wire(x: Sent): seq<byte>
  {
    Encode(x.h) + FenceBytes(x.fence) + x.payload
  }

  function WireAll(xs: seq<Sent>): seq<byte>
  {
    if xs == [] then [] else Wire(xs[0]) + WireAll(xs[1..])
  }

  lemma FrontOfWire(x: Sent, rest: seq<byte>)
    requires Sendable(x)
    ensures FrontOf(Wire(x) + rest) == Whole(x.h, x.fence, x.payload, |Wire(x)|)
  {
    var s := Wire(x) + rest;
    var at := HDR_LEN + |FenceBytes(x.fence)|;
    assert s[..HDR_LEN] == Encode(x.h);
    DecodeEncode(x.h);
    assert s[HDR_LEN..at] == FenceBytes(x.fence);
    assert s[at..at + |x.payload|] == x.payload;
    Powers();
    if x.fence.Fence? {
      NumberOfBytes(x.fence.want, FENCE_LEN);
    }
  }

  function FrameMeant(x: Sent, cursor: nat): Frame
  {
    Frame(x.h.epoch, x.h.ts, x.h.slots, x.h.nsamples, x.fence, x.payload, x.h.ts >= cursor)
  }

  function CursorMeant(x: Sent, cursor: nat): nat
  {
    if x.h.ts < cursor then cursor else EndSsi(x.h.ts, x.h.nsamples)
  }

  /** The frames a host meant by what it sent. */
  function Meant(xs: seq<Sent>, cursor: nat): seq<Frame>
    decreases |xs|
  {
    if xs == [] then [] else [FrameMeant(xs[0], cursor)] + Meant(xs[1..], CursorMeant(xs[0], cursor))
  }

  lemma ParseFront(s: seq<byte>, cursor: nat, f: Front, rest: seq<byte>)
    requires f == FrontOf(s) && f.Whole? && rest == s[f.len..]
    ensures var r := Parse(rest, CursorAfter(f, cursor)); Parse(s, cursor) == Run([FrameOf(f, cursor)] + r.frames, r.stop)
  {
  }

  lemma ParseOneWire(x: Sent, rest: seq<byte>, cursor: nat)
    requires Sendable(x)
    ensures var r := Parse(rest, CursorMeant(x, cursor));
            Parse(Wire(x) + rest, cursor) == Run([FrameMeant(x, cursor)] + r.frames, r.stop)
  {
    var s := Wire(x) + rest;
    FrontOfWire(x, rest);
    assert s[|Wire(x)|..] == rest;
    ParseFront(s, cursor, Whole(x.h, x.fence, x.payload, |Wire(x)|), rest);
  }

  /** A stream of sent frames parses back into those frames, all of them, in order. */
  lemma {:induction false} ParseWire(xs: seq<Sent>, cursor: nat)
    requires forall i :: 0 <= i < |xs| ==> Sendable(xs[i])
    ensures Parse(WireAll(xs), cursor) == Run(Meant(xs, cursor), Ended)
    decreases |xs|
  {
    if xs != [] {
      ParseWire(xs[1..], CursorMeant(xs[0], cursor));
      ParseOneWire(xs[0], WireAll(xs[1..]), cursor);
    }
  }

  // ---------------- only sent frames are accepted ----------------

  lemma NumberOf(s: seq<byte>, n: nat)
    requires |s| == n
    ensures Bytes(Number(s), n) == s && Number(s) < Pow256(n)
  {
    BytesOfNumber(s);
    NumberBound(s);
  }

  lemma SixFields(s: seq<byte>)
    requires |s| == HDR_LEN
    ensures s == [s[0], s[1]] + s[2..4] + s[4..8] + s[8..16] + s[16..18] + s[18..20]
  {
    assert s == s[..18] + s[18..20] && s[..18] == s[..16] + s[16..18] && s[..16] == s[..8] + s[8..16];
    assert s[..8] == [s[0], s[1]] + s[2..4] + s[4..8];
  }

  /** Every header on the wire is the encoding of what it is read as. */
  lemma EncodeDecode(s: seq<byte>)
    requires |s| == HDR_LEN
    ensures InRange(Decode(s)) && Encode(Decode(s)) == s
  {
    Powers();
    NumberOf(s[2..4], 2);
    NumberOf(s[4..8], 4);
    NumberOf(s[8..16], 8);
    NumberOf(s[16..18], 2);
    NumberOf(s[18..20], 2);
    SixFields(s);
  }

  lemma ThreeParts(s: seq<byte>, at: nat, end: nat)
    requires HDR_LEN <= at <= end <= |s|
    ensures s == s[..HDR_LEN] + s[HDR_LEN..at] + s[at..end] + s[end..]
  {
    assert s == s[..end] + s[end..] && s[..end] == s[..at] + s[at..end] && s[..at] == s[..HDR_LEN] + s[HDR_LEN..at];
  }

  /** A frame that is taken is one a host could send. */
  lemma TakenIsSent(s: seq<byte>) returns (x: Sent)
    requires FrontOf(s).Whole?
    ensures Sendable(x) && Wire(x) <= s && FrontOf(s) == Whole(x.h, x.fence, x.payload, |Wire(x)|)
  {
    var f := FrontOf(s);
    var at := if Fenced(f.h) then HDR_LEN + FENCE_LEN else HDR_LEN;
    x := Sent(f.h, f.fence, f.payload);
    EncodeDecode(s[..HDR_LEN]);
    assert FenceBytes(f.fence) == s[HDR_LEN..at] && (f.fence.Fence? ==> f.fence.want < 0x1_0000_0000) by {
      if Fenced(f.h) {
        NumberOf(s[HDR_LEN..at], FENCE_LEN);
        Powers();
      }
    }
    ThreeParts(s, at, f.len);
  }

  lemma SentFirst(x: Sent, ys: seq<Sent>, s: seq<byte>, tail: seq<byte>, rest: seq<byte>, cursor: nat)
    requires Sendable(x) && AllSendable(ys) && Wire(x) <= s && tail == s[|Wire(x)|..] && tail == WireAll(ys) + rest
    requires FrontOf(rest).Cut? && Parse(tail, CursorMeant(x, cursor)) == Run(Meant(ys, CursorMeant(x, cursor)), FrontOf(rest).stop)
    ensures AllSendable([x] + ys) && s == WireAll([x] + ys) + rest
    ensures Parse(s, cursor) == Run(Meant([x] + ys, cursor), FrontOf(rest).stop)
  {
    assert ([x] + ys)[1..] == ys && s == Wire(x) + tail;
    assert Wire(x) + (WireAll(ys) + rest) == (Wire(x) + WireAll(ys)) + rest;
    ParseOneWire(x, tail, cursor);
  }

  /** The device takes exactly the longest run of whole frames a host could send, and stops there. */
  lemma {:induction false} StreamIsSent(s: seq<byte>, cursor: nat) returns (xs: seq<Sent>, rest: seq<byte>)
    ensures AllSendable(xs) && s == WireAll(xs) + rest && FrontOf(rest).Cut?
    ensures Parse(s, cursor) == Run(Meant(xs, cursor), FrontOf(rest).stop)
    decreases |s|
  {
    var f := FrontOf(s);
    if f.Cut? {
      xs, rest := [], s;
    } else {
      var x := TakenIsSent(s);
      var tail := s[|Wire(x)|..];
      var ys, r := StreamIsSent(tail, CursorMeant(x, cursor));
      xs, rest := [x] + ys, r;
      SentFirst(x, ys, s, tail, rest, cursor);
    }
  }

  /** Why it stops, in the bytes themselves: a header that is not of this version and format, carries no
      samples or goes the other way ends the stream at once; otherwise it waits for more, or the frame is
      too long. */
  lemma StopsWhen(s: seq<byte>)
    requires FrontOf(s).Cut?
    ensures FrontOf(s).stop == Malformed <==>
      |s| >= HDR_LEN && (s[0] != 1 || s[18..20] != [1, 0] || s[16..18] == [0, 0] || s[1] % 2 == 0)
    ensures FrontOf(s).stop == Oversize ==> |s| >= HDR_LEN && Decode(s[..HDR_LEN]).nsamples > MAX_NSAMPLES
    ensures FrontOf(s).stop == Ended ==>
      |s| < HDR_LEN || |s| < HDR_LEN + (if Fenced(Decode(s[..HDR_LEN])) then FENCE_LEN else 0) + PayloadLen(Decode(s[..HDR_LEN]))
  {
    if |s| >= HDR_LEN {
      var b := s[..HDR_LEN];
      assert b[18..20] == s[18..20] && b[16..18] == s[16..18];
      TwoBytes(s[18..20]);
      TwoBytes(s[16..18]);
    }
  }

  lemma TwoBytes(s: seq<byte>)
    requires |s| == 2
    ensures Number(s) == 1 <==> s == [1, 0]
    ensures Number(s) == 0 <==> s == [0, 0]
  {
    assert Number(s[1..]) == s[1] + 256 * Number(s[1..][1..]);
    assert s[1..][1..] == [];
  }

  // ---------------- when the ranges of sent frames stay in order ----------------

  /** The device's cursor before frame `k`, from the headers alone. */
  function CursorAt(xs: seq<Sent>, k: nat): nat
    requires k <= |xs|
  {
    if k == 0 then 0 else CursorMeant(xs[k - 1], CursorAt(xs, k - 1))
  }

  /** Frame `i` is not behind the cursor and its range reaches the end of the 64-bit sample space. */
  predicate Reaches(xs: seq<Sent>, i: nat)
    requires i < |xs|
  {
    var h := xs[i].h;
    h.ts >= CursorAt(xs, i) && h.ts + h.nsamples >= WORD64
  }

  predicate FirstReaching(xs: seq<Sent>, i: nat)
    requires i < |xs|
  {
    Reaches(xs, i) && forall k :: 0 <= k < i ==> !Reaches(xs, k)
  }

  /** After the first frame that reaches the end, every header is behind the wrapped cursor. */
  predicate BehindAfterWrap(xs: seq<Sent>)
  {
    forall i, j :: 0 <= i < j < |xs| && FirstReaching(xs, i) ==>
      xs[j].h.ts < xs[i].h.ts + xs[i].h.nsamples - WORD64
  }

  lemma {:induction false} MeantAt(xs: seq<Sent>, from: nat, k: nat)
    requires from <= k < |xs|
    ensures |Meant(xs[from..], CursorAt(xs, from))| == |xs| - from
    ensures Meant(xs[from..], CursorAt(xs, from))[k - from] == FrameMeant(xs[k], CursorAt(xs, k))
    decreases |xs| - from
  {
    assert xs[from..][1..] == xs[from + 1..];
    if from < k {
      MeantAt(xs, from + 1, k);
    } else if from + 1 < |xs| {
      MeantAt(xs, from + 1, from + 1);
    }
  }

  /** The `k`-th frame as the device takes it. */
  lemma MeantFrames(xs: seq<Sent>)
    ensures |Meant(xs, 0)| == |xs|
    ensures forall k :: 0 <= k < |xs| ==> Meant(xs, 0)[k] == FrameMeant(xs[k], CursorAt(xs, k))
  {
    assert xs[0..] == xs;
    forall k | 0 <= k < |xs| ensures |Meant(xs, 0)| == |xs| && Meant(xs, 0)[k] == FrameMeant(xs[k], CursorAt(xs, k)) {
      MeantAt(xs, 0, k);
    }
  }

  ghost predicate AllSendable(xs: seq<Sent>)
  {
    forall i :: 0 <= i < |xs| ==> Sendable(xs[i])
  }

  /** While every later header is behind it, the wrapped cursor stays. */
  lemma {:induction false} CursorStays(xs: seq<Sent>, i: nat, j: nat)
    requires AllSendable(xs) && i < j <= |xs| && Reaches(xs, i)
    requires forall k :: i < k < j ==> xs[k].h.ts < xs[i].h.ts + xs[i].h.nsamples - WORD64
    ensures CursorAt(xs, j) == xs[i].h.ts + xs[i].h.nsamples - WORD64
    decreases j
  {
    if j > i + 1 {
      CursorStays(xs, i, j - 1);
      assert CursorAt(xs, j) == CursorMeant(xs[j - 1], CursorAt(xs, j - 1));
    } else {
      assert Sendable(xs[i]);
      WrappedEnd(xs[i].h.ts, xs[i].h.nsamples);
      assert CursorAt(xs, j) == CursorMeant(xs[i], CursorAt(xs, i));
    }
  }

  lemma WrappedEnd(ts: nat, n: nat)
    requires ts < WORD64 && n <= MAX_NSAMPLES && ts + n >= WORD64
    ensures EndSsi(ts, n) == ts + n - WORD64
  {
  }

  /** If nothing after `i` is rendered, every later header is behind the wrapped cursor. */
  lemma {:induction false} SkippedIsBehind(xs: seq<Sent>, i: nat, j: nat)
    requires AllSendable(xs) && i < j < |xs| && Reaches(xs, i)
    requires forall k :: i < k < |xs| ==> xs[k].h.ts < CursorAt(xs, k)
    ensures forall k :: i < k <= j ==> xs[k].h.ts < xs[i].h.ts + xs[i].h.nsamples - WORD64
    decreases j
  {
    if j > i + 1 {
      SkippedIsBehind(xs, i, j - 1);
    }
    CursorStays(xs, i, j);
  }

  lemma {:induction false} FirstOf(xs: seq<Sent>, i: nat) returns (f: nat)
    requires i < |xs| && Reaches(xs, i)
    ensures f <= i && FirstReaching(xs, f)
  {
    f := 0;
    while !Reaches(xs, f)
      invariant f <= i && forall k :: 0 <= k < f ==> !Reaches(xs, k)
      decreases i - f
    {
      f := f + 1;
    }
  }

  lemma BehindMeansLast(xs: seq<Sent>, i: nat, j: nat)
    requires AllSendable(xs) && BehindAfterWrap(xs) && i < j < |xs| && Reaches(xs, i)
    ensures xs[j].h.ts < CursorAt(xs, j)
  {
    var f := FirstOf(xs, i);
    CursorStays(xs, f, j);
  }

  /** The ranges rendered from a stream of sent frames are disjoint and increasing exactly when, after
      the first frame that reaches the end of the 64-bit sample space, every header is behind the
      wrapped cursor. The sender can tell from the headers. */
  lemma SentRangesOrdered(xs: seq<Sent>)
    requires AllSendable(xs)
    ensures Ordered(Parse(WireAll(xs), 0).frames) <==> BehindAfterWrap(xs)
  {
    var frames := Parse(WireAll(xs), 0).frames;
    ParseWire(xs, 0);
    RangesDisjoint(WireAll(xs));
    MeantFrames(xs);
    if BehindAfterWrap(xs) {
      forall i, j | 0 <= i < j < |frames| && frames[i].rendered && frames[j].rendered
        ensures frames[i].ts + frames[i].n < WORD64
      {
        if Reaches(xs, i) {
          BehindMeansLast(xs, i, j);
        }
      }
    }
    if WrapsLast(frames) {
      forall i, j | 0 <= i < j < |xs| && FirstReaching(xs, i)
        ensures xs[j].h.ts < xs[i].h.ts + xs[i].h.nsamples - WORD64
      {
        assert frames[i].rendered;
        SkippedIsBehind(xs, i, j);
      }
    }
  }

  /** In particular, a host that stays inside the sample space never has a range rendered twice. */
  lemma InsideIsOrdered(xs: seq<Sent>)
    requires AllSendable(xs) && forall i :: 0 <= i < |xs| ==> xs[i].h.ts + xs[i].h.nsamples < WORD64
    ensures Ordered(Parse(WireAll(xs), 0).frames)
  {
    SentRangesOrdered(xs);
  }

  /** A range that ends at the end of the sample space rewinds the cursor: an older range follows. */
  lemma WrapRewinds()
    ensures var h := Header(1, 1, 0, 0, WORD64 - 1, 1, 1);
            !Ordered(Parse(WireAll([Sent(h, NoFence, []), Sent(h.(ts := 0), NoFence, [])]), 0).frames)
  {
    var h := Header(1, 1, 0, 0, WORD64 - 1, 1, 1);
    var a, b := Sent(h, NoFence, []), Sent(h.(ts := 0), NoFence, []);
    ParseWire([a, b], 0);
    assert [a, b][1..] == [b] && [b][1..] == [];
    assert Meant([b], 0) == [FrameMeant(b, 0)];
    var frames := Meant([a, b], 0);
    assert frames[0].rendered && frames[1].rendered;
  }
}
