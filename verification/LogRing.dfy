/** The circular log buffer: length-prefixed records in a fixed byte array, oldest dropped on
    overflow. Proved to hold, as bytes, the longest recent window of everything appended. */
module LogRing {
  import opened Octets
  import opened LogRecords

  const CAPACITY: nat := 0x2_0000

  // ---------------- a circular byte buffer ----------------

  /** The `n` bytes from `pos` on, around the wrap. */
  function Window(ring: seq<byte>, pos: nat, n: nat): (s: seq<byte>)
    requires |ring| == CAPACITY && pos < CAPACITY && n <= CAPACITY
    ensures |s| == n
  {
    (ring + ring)[pos..pos + n]
  }

  function Written(ring: seq<byte>, pos: nat, p: seq<byte>): (r: seq<byte>)
    requires |ring| == CAPACITY && pos < CAPACITY && |p| <= CAPACITY
    ensures |r| == CAPACITY
  {
    var first := CAPACITY - pos;
    if |p| <= first then ring[..pos] + p + ring[pos + |p|..]
    else p[first..] + ring[|p| - first..pos] + p[..first]
  }

  /** Writing just past a window extends the window by what was written. */
  lemma WriteExtends(ring: seq<byte>, tail: nat, used: nat, p: seq<byte>, head: nat)
    requires |ring| == CAPACITY && tail < CAPACITY && used + |p| <= CAPACITY && head == (tail + used) % CAPACITY
    ensures Window(Written(ring, head, p), tail, used + |p|) == Window(ring, tail, used) + p
  {
    var w := Written(ring, head, p);
    var d, e := w + w, ring + ring;
    forall i | tail <= i < tail + used ensures d[i] == e[i] {
      KeptAt(ring, tail, used, p, head, i);
    }
    forall i | tail + used <= i < tail + used + |p| ensures d[i] == p[i - tail - used] {
      WrittenAt(ring, tail, used, p, head, i - tail - used);
    }
    var s := Window(w, tail, used + |p|);
    assert s[..used] == Window(ring, tail, used) by {
      forall j | 0 <= j < used ensures s[..used][j] == Window(ring, tail, used)[j] {
        assert s[j] == d[tail + j] && Window(ring, tail, used)[j] == e[tail + j];
      }
    }
    assert s[used..] == p by {
      forall j | 0 <= j < |p| ensures s[used..][j] == p[j] {
        assert s[used + j] == d[tail + used + j];
      }
    }
  }

  lemma KeptAt(ring: seq<byte>, tail: nat, used: nat, p: seq<byte>, head: nat, i: nat)
    requires |ring| == CAPACITY && tail < CAPACITY && used + |p| <= CAPACITY && head == (tail + used) % CAPACITY
    requires tail <= i < tail + used
    ensures var w := Written(ring, head, p); (w + w)[i] == (ring + ring)[i]
  {
  }

  lemma WrittenAt(ring: seq<byte>, tail: nat, used: nat, p: seq<byte>, head: nat, j: nat)
    requires |ring| == CAPACITY && tail < CAPACITY && used + |p| <= CAPACITY && head == (tail + used) % CAPACITY
    requires j < |p|
    ensures var w := Written(ring, head, p); (w + w)[tail + used + j] == p[j]
  {
  }

  /** Moving the start forward drops bytes from the front of the window. */
  lemma WindowAdvance(ring: seq<byte>, tail: nat, used: nat, k: nat)
    requires |ring| == CAPACITY && tail < CAPACITY && k <= used <= CAPACITY
    ensures Window(ring, (tail + k) % CAPACITY, used - k) == Window(ring, tail, used)[k..]
    ensures Window(ring, tail, k) == Window(ring, tail, used)[..k]
  {
    var tail' := (tail + k) % CAPACITY;
    if tail + k < CAPACITY {
      assert tail' == tail + k;
    } else {
      assert tail' == tail + k - CAPACITY;
      var d := ring + ring;
      forall i | tail' <= i < tail' + (used - k) ensures d[i] == d[i + CAPACITY] {
      }
    }
  }

  // ---------------- the records inside ----------------

  /** The window holds exactly the encoded records. */
  ghost predicate Holds(ring: seq<byte>, tail: nat, used: nat, rs: seq<Record>)
  {
    && |ring| == CAPACITY && tail < CAPACITY && used <= CAPACITY
    && AllFit(rs) && Window(ring, tail, used) == EncodeAll(rs)
  }

  lemma HoldsHead(ring: seq<byte>, tail: nat, used: nat, rs: seq<Record>)
    requires Holds(ring, tail, used, rs) && rs != []
    ensures Size(rs[0]) <= used && used == TotalSize(rs)
    ensures Window(ring, tail, Size(rs[0])) == Encode(rs[0])
    ensures Holds(ring, (tail + Size(rs[0])) % CAPACITY, used - Size(rs[0]), rs[1..])
  {
    EncodeAllSize(rs);
    WindowAdvance(ring, tail, used, Size(rs[0]));
  }

  /** The stride of the record at the start of the window. */
  lemma HeadStride(ring: seq<byte>, tail: nat, used: nat, rs: seq<Record>)
    requires Holds(ring, tail, used, rs) && rs != []
    ensures Number(Window(ring, tail, 4)) == Size(rs[0])
  {
    HoldsHead(ring, tail, used, rs);
    WindowAdvance(ring, tail, Size(rs[0]), 4);
    HeaderFields(rs[0]);
    assert Encode(rs[0])[..4] == Header(rs[0])[..4];
  }

  lemma WindowPart(ring: seq<byte>, tail: nat, n: nat, k: nat, m: nat)
    requires |ring| == CAPACITY && tail < CAPACITY && k + m <= n <= CAPACITY
    ensures Window(ring, (tail + k) % CAPACITY, m) == Window(ring, tail, n)[k..k + m]
  {
    WindowAdvance(ring, tail, n, k);
    WindowAdvance(ring, (tail + k) % CAPACITY, n - k, m);
  }

  lemma EncodeParts(r: Record)
    requires Fits(r)
    ensures var s, t := Encode(r), HDR_BYTES + |r.tag|;
            s[0..HDR_BYTES] == Header(r) && s[HDR_BYTES..t] == r.tag && s[t..t + |r.msg|] == r.msg
  {
  }

  /** The three parts of the record at the start of the window. */
  lemma HeadParts(ring: seq<byte>, tail: nat, used: nat, rs: seq<Record>, r: Record, t: nat)
    requires Holds(ring, tail, used, rs) && rs != [] && r == rs[0] && t == HDR_BYTES + |r.tag|
    ensures Window(ring, tail, HDR_BYTES) == Header(r)
    ensures Window(ring, (tail + HDR_BYTES) % CAPACITY, |r.tag|) == r.tag
    ensures Window(ring, (tail + t) % CAPACITY, |r.msg|) == r.msg
  {
    var n := Size(r);
    HoldsHead(ring, tail, used, rs);
    EncodeParts(r);
    WindowPart(ring, tail, n, 0, HDR_BYTES);
    WindowPart(ring, tail, n, HDR_BYTES, |r.tag|);
    WindowPart(ring, tail, n, t, |r.msg|);
  }

  lemma HoldsMore(ring: seq<byte>, tail: nat, used: nat, rs: seq<Record>, r: Record, ring': seq<byte>)
    requires Holds(ring, tail, used, rs) && Fits(r) && used + Size(r) <= CAPACITY && |ring'| == CAPACITY
    requires Window(ring', tail, used + Size(r)) == Window(ring, tail, used) + Header(r) + r.tag + r.msg
    ensures Holds(ring', tail, used + Size(r), rs + [r])
  {
    EncodeAllThen(rs, r);
    var w := Window(ring, tail, used);
    assert w + Header(r) + r.tag + r.msg == w + Encode(r);
  }

  class LogRing {
    const buf: array<byte>
    var head: nat
    var tail: nat
    var used: nat
    var nrec: nat
    var dropped: nat
    ghost var stored: seq<Record>
    ghost var appended: seq<Record>

    ghost predicate Shape()
      reads this, buf
    {
      && buf.Length == CAPACITY && head == (tail + used) % CAPACITY && nrec == |stored|
      && Holds(buf[..], tail, used, stored)
    }

    /** The ring holds the longest recent window of everything appended that fits. */
    ghost predicate Valid()
      reads this, buf
    {
      && Shape() && AllFit(appended)
      && stored == Recent(appended, CAPACITY) && nrec + dropped == |appended|
    }

    constructor ()
      ensures Valid() && appended == [] && dropped == 0 && fresh(buf)
    {
      buf := new byte[CAPACITY](_ => 0);
      head, tail, used, nrec, dropped := 0, 0, 0, 0, 0;
      stored, appended := [], [];
    }

    method Reset()
      requires Valid()
      modifies this
      ensures Valid() && appended == [] && dropped == 0
    {
      head, tail, used, nrec, dropped := 0, 0, 0, 0, 0;
      stored, appended := [], [];
    }

    method Put(pos: nat, p: seq<byte>)
      requires buf.Length == CAPACITY && pos < CAPACITY && |p| <= CAPACITY
      modifies buf
      ensures buf[..] == Written(old(buf[..]), pos, p)
    {
      var first := CAPACITY - pos;
      if |p| <= first {
        forall i | 0 <= i < |p| { buf[pos + i] := p[i]; }
      } else {
        forall i | 0 <= i < first { buf[pos + i] := p[i]; }
        forall i | 0 <= i < |p| - first { buf[i] := p[first + i]; }
      }
    }

    method Get(pos: nat, n: nat) returns (p: seq<byte>)
      requires buf.Length == CAPACITY && pos < CAPACITY && n <= CAPACITY
      ensures p == Window(buf[..], pos, n)
    {
      var first := CAPACITY - pos;
      if n <= first {
        p := buf[pos..pos + n];
      } else {
        p := buf[pos..] + buf[..n - first];
      }
    }

    /** Step over the record at the start of a window. */
    method Skip(cur: nat, remain: nat, ghost rs: seq<Record>) returns (cur': nat, remain': nat)
      requires buf.Length == CAPACITY && Holds(buf[..], cur, remain, rs) && rs != []
      ensures Holds(buf[..], cur', remain', rs[1..])
      ensures remain == TotalSize(rs) == remain' + Size(rs[0]) && cur' == (cur + Size(rs[0])) % CAPACITY
    {
      HoldsHead(buf[..], cur, remain, rs);
      HeadStride(buf[..], cur, remain, rs);
      var th := Get(cur, 4);
      var rl := Number(th);
      cur', remain' := (cur + rl) % CAPACITY, remain - rl;
    }

    /** Read back the record at the start of a window. */
    method Read(cur: nat, remain: nat, ghost rs: seq<Record>) returns (r: Record)
      requires buf.Length == CAPACITY && Holds(buf[..], cur, remain, rs) && rs != []
      ensures r == rs[0]
    {
      HeadParts(buf[..], cur, remain, rs, rs[0], HDR_BYTES + |rs[0].tag|);
      HeaderFields(rs[0]);
      var h := Get(cur, HDR_BYTES);
      var msgLen, tagLen := Number(h[12..14]), h[15];
      var tag := Get((cur + HDR_BYTES) % CAPACITY, tagLen);
      var msg := Get((cur + (HDR_BYTES + tagLen)) % CAPACITY, msgLen);
      r := Record(Number(h[4..12]), h[14], tag, msg);
    }

    /** Evict oldest whole records until `total` more bytes fit, and no more than that. */
    method Evict(total: nat)
      requires Shape() && total <= CAPACITY
      modifies this`tail, this`used, this`nrec, this`dropped, this`stored
      ensures Shape() && used + total <= CAPACITY && head == old(head)
      ensures stored == Recent(old(stored), CAPACITY - total) && nrec + dropped == old(nrec + dropped)
    {
      var budget := CAPACITY - total;
      while used > budget && nrec > 0
        invariant Shape() && head == old(head) && nrec + dropped == old(nrec + dropped)
        invariant Recent(stored, budget) == Recent(old(stored), budget)
        decreases nrec
      {
        var tail', used' := Skip(tail, used, stored);
        ModShift(tail, used - used', used');
        tail, used := tail', used';
        nrec, dropped := nrec - 1, dropped + 1;
        stored := stored[1..];
      }
      EncodeAllSize(stored);
    }

    /** Write `p` just past the first `at` bytes of the window. */
    method Extend(pos: nat, at: nat, p: seq<byte>)
      requires buf.Length == CAPACITY && tail < CAPACITY && at + |p| <= CAPACITY && pos == (tail + at) % CAPACITY
      modifies buf
      ensures Window(buf[..], tail, at + |p|) == old(Window(buf[..], tail, at)) + p
    {
      WriteExtends(buf[..], tail, at, p, pos);
      Put(pos, p);
    }

    /** The three parts of a record, written one after the other. */
    method PutRecord(h: seq<byte>, tag: seq<byte>, msg: seq<byte>)
      requires buf.Length == CAPACITY && tail < CAPACITY && head == (tail + used) % CAPACITY
      requires used + |h| + |tag| + |msg| <= CAPACITY
      modifies buf
      ensures Window(buf[..], tail, used + |h| + |tag| + |msg|) == old(Window(buf[..], tail, used)) + h + tag + msg
    {
      var tagAt, msgAt := used + |h|, used + |h| + |tag|;
      ModShift(tail, used, |h|);
      ModShift(tail, used, |h| + |tag|);
      Extend(head, used, h);
      Extend((head + |h|) % CAPACITY, tagAt, tag);
      Extend((head + (|h| + |tag|)) % CAPACITY, msgAt, msg);
    }

    /** Write one record past the window. */
    method Write(r: Record)
      requires Shape() && Fits(r) && used + Size(r) <= CAPACITY
      modifies this`head, this`used, this`nrec, this`stored, buf
      ensures Shape() && stored == old(stored) + [r]
    {
      ghost var ring := buf[..];
      PutRecord(Header(r), r.tag, r.msg);
      HoldsMore(ring, tail, used, stored, r, buf[..]);
      ModShift(tail, used, Size(r));
      head := (head + Size(r)) % CAPACITY;
      used := used + Size(r);
      nrec := nrec + 1;
      stored := stored + [r];
    }

    method Append(level: int, tag: seq<byte>, msc: nat, msg: seq<byte>)
      requires Valid() && msc < 0x1_0000_0000_0000_0000
      modifies this, buf
      ensures Valid() && appended == old(appended) + [Truncated(level, tag, msc, msg)]
    {
      var r := Truncated(level, tag, msc, msg);
      WindowThen(appended, stored, r);
      Evict(Size(r));
      Write(r);
      appended := appended + [r];
    }

    /** The most recent records within a byte budget, read back out of the buffer. */
    method Emit(budget: nat) returns (out: seq<Record>)
      requires Valid()
      ensures out == Recent(appended, if budget < CAPACITY then budget else CAPACITY)
    {
      ghost var rest := stored;
      var cur: nat, remain: nat, n := tail, used, nrec;
      while remain > budget && n > 0
        invariant n == |rest| && Holds(buf[..], cur, remain, rest)
        invariant Recent(rest, budget) == Recent(stored, budget)
        decreases n
      {
        cur, remain := Skip(cur, remain, rest);
        n, rest := n - 1, rest[1..];
      }
      EncodeAllSize(rest);
      WindowOfWindow(appended, stored, budget);
      ghost var total := rest;
      out := [];
      while n > 0
        invariant n == |rest| && Holds(buf[..], cur, remain, rest) && total == out + rest
        decreases n
      {
        var r := Read(cur, remain, rest);
        out := out + [r];
        cur, remain := Skip(cur, remain, rest);
        n, rest := n - 1, rest[1..];
      }
    }
  }

  lemma ModShift(tail: nat, k: nat, used: nat)
    ensures ((tail + k) % CAPACITY + used) % CAPACITY == (tail + (k + used)) % CAPACITY
  {
  }

  lemma WindowThen(all: seq<Record>, stored: seq<Record>, r: Record)
    requires AllFit(all) && Fits(r) && stored == Recent(all, CAPACITY)
    ensures Size(r) <= CAPACITY && Recent(all + [r], CAPACITY) == Recent(stored, CAPACITY - Size(r)) + [r]
  {
    RecentNested(all, CAPACITY, CAPACITY - Size(r));
    RecentThen(all, r, CAPACITY);
  }

  lemma WindowOfWindow(all: seq<Record>, stored: seq<Record>, budget: nat)
    requires stored == Recent(all, CAPACITY)
    ensures Recent(stored, budget) == Recent(all, if budget < CAPACITY then budget else CAPACITY)
  {
    if budget < CAPACITY {
      RecentNested(all, CAPACITY, budget);
    } else {
      RecentIsLongest(all, CAPACITY);
    }
  }
}
