/** The RTP packet codec (section 5.1 of RFC 3550): a sender that emits the base header only and a
    receiver that also skips contributing sources and one extension header. */
module RtpPacket {
  import opened Octets

  const HDR_BYTES: nat := 12

  datatype Header = Header(pt: nat, marker: bool, seqno: nat, timestamp: nat, ssrc: nat)

  datatype Parsed = Malformed | Packet(h: Header, payload: seq<byte>)

  function Put16(v: nat): (s: seq<byte>)
    ensures |s| == 2
  {
    [(v / 256) % 256, v % 256]
  }

  function Put32(v: nat): (s: seq<byte>)
    ensures |s| == 4
  {
    [(v / 0x100_0000) % 256, (v / 0x1_0000) % 256, (v / 256) % 256, v % 256]
  }

  function Get16(s: seq<byte>): (v: nat)
    requires |s| == 2
    ensures v < 0x1_0000
  {
    var hi: int, lo: int := s[0], s[1];
    hi * 256 + lo
  }

  function Get32(s: seq<byte>): (v: nat)
    requires |s| == 4
    ensures v < 0x1_0000_0000
  {
    var a: int, b: int, c: int, d: int := s[0], s[1], s[2], s[3];
    a * 0x100_0000 + b * 0x1_0000 + c * 256 + d
  }

  /** The 12 bytes of the base header, with `first` carrying the version, extension bit and count. */
  function Base(first: byte, h: Header): (s: seq<byte>)
    ensures |s| == HDR_BYTES
  {
    [first, (if h.marker then 0x80 else 0) + h.pt % 128] + Put16(h.seqno) + Put32(h.timestamp) + Put32(h.ssrc)
  }

  /** Fails when the buffer is too small, otherwise header and payload. */
  function Pack(cap: nat, h: Header, payload: seq<byte>): (r: (bool, seq<byte>))
    ensures r.0 <==> HDR_BYTES + |payload| <= cap
  {
    if cap < HDR_BYTES + |payload| then (false, []) else (true, Base(0x80, h) + payload)
  }

  function ReadHeader(pkt: seq<byte>): Header
    requires |pkt| >= HDR_BYTES
  {
    Header(pkt[1] % 128, pkt[1] / 128 == 1, Get16(pkt[2..4]), Get32(pkt[4..8]), Get32(pkt[8..12]))
  }

  function Unpack(pkt: seq<byte>): Parsed
  {
    if |pkt| < HDR_BYTES || pkt[0] / 64 != 2 then Malformed
    else
      var off := HDR_BYTES + (pkt[0] % 16) * 4;
      var ext := (pkt[0] / 16) % 2 == 1;
      if |pkt| < off then Malformed
      else if !ext then Packet(ReadHeader(pkt), pkt[off..])
      else if |pkt| < off + 4 then Malformed
      else
        var end := off + 4 + Get16(pkt[off + 2..off + 4]) * 4;
        if |pkt| < end then Malformed else Packet(ReadHeader(pkt), pkt[end..])
  }

  // ---------------- any well-formed packet ----------------

  datatype Extension = NoExtension | Extended(profile: seq<byte>, body: seq<byte>)

  /** A packet as the standard lays it out: header, contributing sources, extension, payload. */
  ghost predicate WellFormed(h: Header, csrc: seq<byte>, x: Extension)
  {
    && h.pt < 128 && h.seqno < 0x1_0000 && h.timestamp < 0x1_0000_0000 && h.ssrc < 0x1_0000_0000
    && |csrc| % 4 == 0 && |csrc| <= 60
    && (x.Extended? ==> |x.profile| == 2 && |x.body| % 4 == 0 && |x.body| < 4 * 0x1_0000)
  }

  function ExtensionBytes(x: Extension): seq<byte>
  {
    if x.NoExtension? then [] else x.profile + Put16(|x.body| / 4) + x.body
  }

  function Layout(h: Header, csrc: seq<byte>, x: Extension, payload: seq<byte>): seq<byte>
    requires |csrc| % 4 == 0 && |csrc| <= 60
  {
    Base(0x80 + (if x.Extended? then 16 else 0) + |csrc| / 4, h) + csrc + ExtensionBytes(x) + payload
  }

  lemma RoundTrip16(v: nat)
    requires v < 0x1_0000
    ensures Get16(Put16(v)) == v
  {
    assert v / 256 < 256;
  }

  lemma RoundTrip32(v: nat)
    requires v < 0x1_0000_0000
    ensures Get32(Put32(v)) == v
  {
    var a, b, c := v / 0x100_0000, v / 0x1_0000, v / 256;
    assert b / 256 == a && c / 256 == b && a < 256;
    assert v == c * 256 + v % 256 && c == b * 256 + c % 256 && b == a * 256 + b % 256;
  }

  lemma HeaderReadsBack(first: byte, h: Header, rest: seq<byte>)
    requires h.pt < 128 && h.seqno < 0x1_0000 && h.timestamp < 0x1_0000_0000 && h.ssrc < 0x1_0000_0000
    ensures ReadHeader(Base(first, h) + rest) == h && (Base(first, h) + rest)[0] == first
  {
    var pkt := Base(first, h) + rest;
    assert pkt[2..4] == Put16(h.seqno) && pkt[4..8] == Put32(h.timestamp) && pkt[8..12] == Put32(h.ssrc);
    RoundTrip16(h.seqno);
    RoundTrip32(h.timestamp);
    RoundTrip32(h.ssrc);
  }

  /** The offset at which the receiver finds the payload. */
  lemma SkipsToPayload(pkt: seq<byte>, base: seq<byte>, csrc: seq<byte>, x: Extension, payload: seq<byte>)
    requires |base| == HDR_BYTES && pkt == base + csrc + ExtensionBytes(x) + payload
    requires x.Extended? ==> |x.profile| == 2 && |x.body| % 4 == 0 && |x.body| < 4 * 0x1_0000
    ensures var off := HDR_BYTES + |csrc|;
            && pkt[off + |ExtensionBytes(x)|..] == payload
            && (x.Extended? ==> Get16(pkt[off + 2..off + 4]) == |x.body| / 4)
  {
    var off := HDR_BYTES + |csrc|;
    var head := base + csrc;
    assert pkt == head + (ExtensionBytes(x) + payload);
    assert pkt[off..] == ExtensionBytes(x) + payload;
    if x.Extended? {
      assert pkt[off + 2..off + 4] == pkt[off..][2..4] == Put16(|x.body| / 4);
      RoundTrip16(|x.body| / 4);
    }
  }

  /** Every packet of the standard's form is read back: header and payload, whatever it carries in
      between. */
  lemma UnpackLayout(h: Header, csrc: seq<byte>, x: Extension, payload: seq<byte>)
    requires WellFormed(h, csrc, x)
    ensures Unpack(Layout(h, csrc, x, payload)) == Packet(h, payload)
  {
    var first := 0x80 + (if x.Extended? then 16 else 0) + |csrc| / 4;
    var pkt := Layout(h, csrc, x, payload);
    Regroup(Base(first, h), csrc, ExtensionBytes(x), payload);
    HeaderReadsBack(first, h, csrc + ExtensionBytes(x) + payload);
    SkipsToPayload(pkt, Base(first, h), csrc, x, payload);
    FirstByte(|csrc| / 4, x.Extended?);
    UnpackAt(pkt, |csrc|, x, payload);
  }

  lemma Regroup(a: seq<byte>, b: seq<byte>, c: seq<byte>, d: seq<byte>)
    ensures a + b + c + d == a + (b + c + d)
  {
  }

  /** How the receiver reads a packet whose parts lie where they should. */
  lemma UnpackAt(pkt: seq<byte>, n: nat, x: Extension, payload: seq<byte>)
    requires |pkt| == HDR_BYTES + n + |ExtensionBytes(x)| + |payload| && n % 4 == 0
    requires pkt[0] / 64 == 2 && pkt[0] % 16 == n / 4 && ((pkt[0] / 16) % 2 == 1 <==> x.Extended?)
    requires pkt[HDR_BYTES + n + |ExtensionBytes(x)|..] == payload
    requires x.Extended? ==> |x.profile| == 2 && |x.body| % 4 == 0
    requires x.Extended? ==> Get16(pkt[HDR_BYTES + n + 2..HDR_BYTES + n + 4]) == |x.body| / 4
    ensures Unpack(pkt) == Packet(ReadHeader(pkt), payload)
  {
    assert (n / 4) * 4 == n;
  }

  lemma FirstByte(cc: nat, ext: bool)
    requires cc < 16
    ensures var first := 0x80 + (if ext then 16 else 0) + cc;
            first / 64 == 2 && first % 16 == cc && ((first / 16) % 2 == 1 <==> ext)
  {
  }

  /** What is sent is what is received. */
  lemma UnpackPack(cap: nat, h: Header, payload: seq<byte>)
    requires h.pt < 128 && h.seqno < 0x1_0000 && h.timestamp < 0x1_0000_0000 && h.ssrc < 0x1_0000_0000
    requires HDR_BYTES + |payload| <= cap
    ensures Pack(cap, h, payload).0 && Unpack(Pack(cap, h, payload).1) == Packet(h, payload)
  {
    UnpackLayout(h, [], NoExtension, payload);
    assert Base(0x80, h) + [] + [] + payload == Base(0x80, h) + payload;
  }

  // ---------------- only such packets are accepted ----------------

  lemma Back16(s: seq<byte>)
    requires |s| == 2
    ensures Put16(Get16(s)) == s
  {
    var hi: int, lo: int := s[0], s[1];
    assert (hi * 256 + lo) / 256 == hi && (hi * 256 + lo) % 256 == lo;
  }

  lemma Back32(s: seq<byte>)
    requires |s| == 4
    ensures Put32(Get32(s)) == s
  {
    var a: int, b: int, c: int, d: int := s[0], s[1], s[2], s[3];
    FourBytes(a, b, c, d);
  }

  lemma FourBytes(a: int, b: int, c: int, d: int)
    requires 0 <= a < 256 && 0 <= b < 256 && 0 <= c < 256 && 0 <= d < 256
    ensures var v := a * 0x100_0000 + b * 0x1_0000 + c * 256 + d;
            (v / 0x100_0000) % 256 == a && (v / 0x1_0000) % 256 == b && (v / 256) % 256 == c && v % 256 == d
  {
    var v, x, y := a * 0x100_0000 + b * 0x1_0000 + c * 256 + d, a * 0x1_0000 + b * 256 + c, a * 256 + b;
    assert v / 256 == x && v % 256 == d;
    assert v == y * 0x1_0000 + (c * 256 + d) && v / 0x1_0000 == y;
    assert v == a * 0x100_0000 + (b * 0x1_0000 + c * 256 + d) && v / 0x100_0000 == a;
    assert x == y * 256 + c && x % 256 == c && y % 256 == b;
  }

  /** The first 12 bytes are the base header that is read from them. */
  lemma HeaderIsThere(pkt: seq<byte>)
    requires |pkt| >= HDR_BYTES
    ensures pkt[..HDR_BYTES] == Base(pkt[0], ReadHeader(pkt))
  {
    Back16(pkt[2..4]);
    Back32(pkt[4..8]);
    Back32(pkt[8..12]);
    var second: int := pkt[1];
    assert second == (if second / 128 == 1 then 0x80 else 0) + second % 128;
    var b := Base(pkt[0], ReadHeader(pkt));
    assert b[..2] == pkt[..2] && b[2..4] == pkt[2..4] && b[4..8] == pkt[4..8] && b[8..12] == pkt[8..12];
    assert b == b[..2] + b[2..4] + b[4..8] + b[8..12];
  }

  /** The standard's form with any padding bit, which the receiver does not look at. */
  ghost predicate LaidOut(pkt: seq<byte>, h: Header, csrc: seq<byte>, x: Extension, payload: seq<byte>)
  {
    && WellFormed(h, csrc, x) && |pkt| >= HDR_BYTES && pkt == Base(pkt[0], h) + csrc + ExtensionBytes(x) + payload
    && pkt[0] / 64 == 2 && pkt[0] % 16 == |csrc| / 4 && ((pkt[0] / 16) % 2 == 1 <==> x.Extended?)
  }

  lemma ExtensionThere(pkt: seq<byte>, off: nat, end: nat) returns (x: Extension)
    requires off + 4 <= end <= |pkt| && end == off + 4 + Get16(pkt[off + 2..off + 4]) * 4
    ensures x.Extended? && |x.profile| == 2 && |x.body| % 4 == 0 && |x.body| < 4 * 0x1_0000
    ensures ExtensionBytes(x) == pkt[off..end]
  {
    x := Extended(pkt[off..off + 2], pkt[off + 4..end]);
    assert |x.body| / 4 == Get16(pkt[off + 2..off + 4]);
    Back16(pkt[off + 2..off + 4]);
    assert pkt[off..end] == pkt[off..off + 2] + pkt[off + 2..off + 4] + pkt[off + 4..end];
  }

  lemma FourParts(pkt: seq<byte>, off: nat, end: nat)
    requires HDR_BYTES <= off <= end <= |pkt|
    ensures pkt == pkt[..HDR_BYTES] + pkt[HDR_BYTES..off] + pkt[off..end] + pkt[end..]
  {
    assert pkt == pkt[..end] + pkt[end..] && pkt[..end] == pkt[..off] + pkt[off..end];
    assert pkt[..off] == pkt[..HDR_BYTES] + pkt[HDR_BYTES..off];
  }

  /** Whatever is accepted is a packet of the standard's form, and what is reported is its header and
      payload. */
  lemma AcceptedIsLaidOut(pkt: seq<byte>) returns (h: Header, csrc: seq<byte>, x: Extension, payload: seq<byte>)
    requires Unpack(pkt).Packet?
    ensures LaidOut(pkt, h, csrc, x, payload) && Unpack(pkt) == Packet(h, payload)
  {
    var off := HDR_BYTES + (pkt[0] % 16) * 4;
    h, csrc, x := ReadHeader(pkt), pkt[HDR_BYTES..off], NoExtension;
    HeaderIsThere(pkt);
    var end := off;
    if (pkt[0] / 16) % 2 == 1 {
      end := off + 4 + Get16(pkt[off + 2..off + 4]) * 4;
      x := ExtensionThere(pkt, off, end);
    }
    payload := pkt[end..];
    FourParts(pkt, off, end);
    assert |csrc| == (pkt[0] % 16) * 4;
  }

  /** And every such packet is. */
  lemma LaidOutIsAccepted(pkt: seq<byte>, h: Header, csrc: seq<byte>, x: Extension, payload: seq<byte>)
    requires LaidOut(pkt, h, csrc, x, payload)
    ensures Unpack(pkt) == Packet(h, payload)
  {
    Regroup(Base(pkt[0], h), csrc, ExtensionBytes(x), payload);
    HeaderReadsBack(pkt[0], h, csrc + ExtensionBytes(x) + payload);
    SkipsToPayload(pkt, Base(pkt[0], h), csrc, x, payload);
    UnpackAt(pkt, |csrc|, x, payload);
  }
}
