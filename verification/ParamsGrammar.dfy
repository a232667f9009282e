/** What the params decoder accepts: exactly the bytes that start with a well-formed document, in any
    definite form of its heads, per-part or flat. What it accepts it reads as that document, and a
    document cut short anywhere is rejected. */
module ParamsGrammar {
  import opened Octets
  import opened Cbor
  import opened Sizes
  import opened ParamsBlob
  import opened ParamsRoundTrip

  // ---------------- heads in any form ----------------

  /** The argument of a head and the form it is written in. */
  datatype Item = Item(ai: nat, arg: nat)

  ghost predicate Plain(i: Item)
  {
    i.ai < 28 && if i.ai < 24 then i.arg == i.ai else i.arg < Pow256(ArgumentBytes(i.ai))
  }

  ghost function HeadOf(major: nat, i: Item): seq<byte>
    requires major < 8 && Plain(i)
  {
    HeadWith(major, i.ai, i.arg)
  }

  lemma {:induction false} BigBack(s: seq<byte>)
    ensures BigBytes(BigNumber(s), |s|) == s && BigNumber(s) < Pow256(|s|)
  {
    if s != [] {
      var p, last := s[..|s| - 1], s[|s| - 1];
      BigBack(p);
      var n := 256 * BigNumber(p) + last;
      assert n / 256 == BigNumber(p) && n % 256 == last;
      assert s == p + [last];
    }
  }

  /** Whatever head is read stands there, written in the form that was found. */
  lemma ReadIsThere(s: seq<byte>)
    requires ReadHead(s).Head?
    ensures var h := ReadHead(s);
            && h.major < 8 && Plain(Item(h.ai, h.val)) && s == HeadOf(h.major, Item(h.ai, h.val)) + h.rest
  {
    var ai := s[0] % 32;
    var n := if ai < 24 then 0 else ArgumentBytes(ai);
    BigBack(s[1..1 + n]);
    assert s == [s[0]] + s[1..1 + n] + s[1 + n..];
    if ai < 24 {
      assert s[1..] == s[1 + n..] && BigBytes(ai, 0) == [];
    }
  }

  lemma ReadItem(major: nat, i: Item, rest: seq<byte>)
    requires major < 8 && Plain(i)
    ensures ReadHead(HeadOf(major, i) + rest) == Head(major, i.ai, i.arg, rest)
  {
    ReadHeadWith(major, i.ai, i.arg, rest);
  }

  lemma ReadMapItem(i: Item, rest: seq<byte>)
    requires Plain(i) && 2 * i.arg <= |rest|
    ensures ReadMap(HeadOf(5, i) + rest) == Head(5, i.ai, i.arg, rest)
  {
    ReadItem(5, i, rest);
    assert (i.arg * 2) % U64 <= i.arg * 2;
  }

  // ---------------- the grammar ----------------

  datatype WirePair = WirePair(key: Item, value: Item)

  datatype WirePart = WirePart(key: Item, size: Item, pairs: seq<WirePair>)

  datatype Wire = PerPart(size: Item, parts: seq<WirePart>) | Flat(size: Item, pairs: seq<WirePair>)

  /** An unsigned key and a float in one of its three widths. */
  ghost predicate GoodPair(w: WirePair)
  {
    Plain(w.key) && Plain(w.value) && 25 <= w.value.ai <= 27
  }

  ghost predicate GoodPairs(ws: seq<WirePair>)
  {
    forall i :: 0 <= i < |ws| ==> GoodPair(ws[i])
  }

  ghost predicate GoodPart(w: WirePart)
  {
    Plain(w.key) && Plain(w.size) && w.size.arg == |w.pairs| && GoodPairs(w.pairs)
  }

  ghost predicate GoodParts(ws: seq<WirePart>)
  {
    forall i :: 0 <= i < |ws| ==> GoodPart(ws[i])
  }

  ghost predicate Good(w: Wire)
  {
    match w
    case PerPart(size, parts) => Plain(size) && size.arg == |parts| && GoodParts(parts)
    case Flat(size, pairs) => Plain(size) && size.arg == |pairs| && GoodPairs(pairs) && pairs != []
  }

  ghost function PairBytes(w: WirePair): (s: seq<byte>)
    requires GoodPair(w)
    ensures |s| >= 2
  {
    HeadOf(0, w.key) + HeadOf(7, w.value)
  }

  ghost function PairsBytes(ws: seq<WirePair>): (s: seq<byte>)
    requires GoodPairs(ws)
    ensures |s| >= 2 * |ws|
  {
    if ws == [] then [] else PairBytes(ws[0]) + PairsBytes(ws[1..])
  }

  ghost function PartBytes(w: WirePart): (s: seq<byte>)
    requires GoodPart(w)
    ensures |s| >= 2
  {
    HeadOf(0, w.key) + (HeadOf(5, w.size) + PairsBytes(w.pairs))
  }

  ghost function PartsBytes(ws: seq<WirePart>): (s: seq<byte>)
    requires GoodParts(ws)
    ensures |s| >= 2 * |ws|
  {
    if ws == [] then [] else PartBytes(ws[0]) + PartsBytes(ws[1..])
  }

  ghost function WireBytes(w: Wire): seq<byte>
    requires Good(w)
  {
    match w
    case PerPart(size, parts) => HeadOf(5, size) + PartsBytes(parts)
    case Flat(size, pairs) => HeadOf(5, size) + PairsBytes(pairs)
  }

  // ---------------- its meaning ----------------

  ghost function PairsOf<V>(fl: Floats<V>, ws: seq<WirePair>): (r: seq<Pair<V>>)
    ensures |r| == |ws|
  {
    seq(|ws|, i requires 0 <= i < |ws| => Pair(ws[i].key.arg, fl.value(ws[i].value.ai, ws[i].value.arg)))
  }

  ghost function PartsOf<V>(fl: Floats<V>, ws: seq<WirePart>): (r: seq<PartMap<V>>)
    ensures |r| == |ws|
  {
    seq(|ws|, i requires 0 <= i < |ws| => PartMap(ws[i].key.arg, PairsOf(fl, ws[i].pairs)))
  }

  ghost function Meaning<V>(fl: Floats<V>, ids: seq<nat>, w: Wire, g: Grid<V>): Grid<V>
    requires Shaped(g, |ids|)
  {
    match w
    case PerPart(_, parts) => ApplyDoc(ids, PartsOf(fl, parts), g)
    case Flat(_, pairs) => ApplyPairs(ids, PairsOf(fl, pairs), 0, g)
  }

  /** The grid after one pair. */
  ghost function Stored<V>(fl: Floats<V>, ids: seq<nat>, w: WirePair, part: nat, g: Grid<V>): (g': Grid<V>)
    requires Shaped(g, |ids|)
    ensures Shaped(g', |ids|)
  {
    if part < NPARTS then GridSet(ids, g, part, w.key.arg, fl.value(w.value.ai, w.value.arg)) else g
  }

  lemma PairsOfFirst<V>(fl: Floats<V>, ids: seq<nat>, w: WirePair, ws: seq<WirePair>, part: nat, g: Grid<V>)
    requires Shaped(g, |ids|)
    ensures ApplyPairs(ids, PairsOf(fl, [w] + ws), part, g) == ApplyPairs(ids, PairsOf(fl, ws), part, Stored(fl, ids, w, part, g))
  {
    var ps := PairsOf(fl, [w] + ws);
    assert ps[1..] == PairsOf(fl, ws);
    assert ps[0] == Pair(w.key.arg, fl.value(w.value.ai, w.value.arg));
  }

  lemma PartsOfFirst<V>(fl: Floats<V>, ids: seq<nat>, w: WirePart, ws: seq<WirePart>, g: Grid<V>)
    requires Shaped(g, |ids|)
    ensures ApplyDoc(ids, PartsOf(fl, [w] + ws), g)
         == ApplyDoc(ids, PartsOf(fl, ws), ApplyPairs(ids, PairsOf(fl, w.pairs), w.key.arg, g))
  {
    var ps := PartsOf(fl, [w] + ws);
    assert ps[1..] == PartsOf(fl, ws);
    assert ps[0] == PartMap(w.key.arg, PairsOf(fl, w.pairs));
  }

  lemma PairsBytesFirst(w: WirePair, ws: seq<WirePair>)
    requires GoodPair(w) && GoodPairs(ws)
    ensures GoodPairs([w] + ws) && PairsBytes([w] + ws) == PairBytes(w) + PairsBytes(ws)
  {
    assert ([w] + ws)[1..] == ws;
  }

  lemma PartsBytesFirst(w: WirePart, ws: seq<WirePart>)
    requires GoodPart(w) && GoodParts(ws)
    ensures GoodParts([w] + ws) && PartsBytes([w] + ws) == PartBytes(w) + PartsBytes(ws)
  {
    assert ([w] + ws)[1..] == ws;
  }

  // ---------------- every document is accepted ----------------

  lemma PairRead<V>(fl: Floats<V>, ids: seq<nat>, w: WirePair, rest: seq<byte>, part: nat, g: Grid<V>)
    requires Shaped(g, |ids|) && GoodPair(w)
    ensures ParsePair(fl, ids, PairBytes(w) + rest, part, g) == Parsed(true, rest, Stored(fl, ids, w, part, g))
  {
    var k, v := HeadOf(0, w.key), HeadOf(7, w.value);
    Regroup(k, v, rest);
    ReadItem(0, w.key, v + rest);
    ReadItem(7, w.value, rest);
  }

  lemma {:induction false} PairsRead<V>(fl: Floats<V>, ids: seq<nat>, ws: seq<WirePair>, rest: seq<byte>, part: nat,
        g: Grid<V>)
    requires Shaped(g, |ids|) && GoodPairs(ws)
    ensures ParsePairs(fl, ids, PairsBytes(ws) + rest, |ws|, part, g)
         == Parsed(true, rest, ApplyPairs(ids, PairsOf(fl, ws), part, g))
    decreases |ws|
  {
    if ws == [] {
      assert PairsBytes(ws) + rest == rest;
    } else {
      var w, tail := ws[0], ws[1..];
      var g', s := Stored(fl, ids, w, part, g), PairsBytes(tail) + rest;
      assert ws == [w] + tail;
      PairsRead(fl, ids, tail, rest, part, g');
      PairsOfFirst(fl, ids, w, tail, part, g);
      Regroup(PairBytes(w), PairsBytes(tail), rest);
      PairRead(fl, ids, w, s, part, g);
      PairsUnfold(fl, ids, PairBytes(w) + s, |ws|, |tail|, part, g, Parsed(true, s, g'));
    }
  }

  lemma PartRead<V>(fl: Floats<V>, ids: seq<nat>, size: Item, ws: seq<WirePair>, rest: seq<byte>, part: nat, g: Grid<V>)
    requires Shaped(g, |ids|) && Plain(size) && size.arg == |ws| && GoodPairs(ws)
    ensures ParsePart(fl, ids, HeadOf(5, size) + PairsBytes(ws) + rest, part, g)
         == Parsed(true, rest, ApplyPairs(ids, PairsOf(fl, ws), part, g))
  {
    Regroup(HeadOf(5, size), PairsBytes(ws), rest);
    ReadMapItem(size, PairsBytes(ws) + rest);
    PairsRead(fl, ids, ws, rest, part, g);
  }

  lemma {:induction false} PartsRead<V>(fl: Floats<V>, ids: seq<nat>, ws: seq<WirePart>, rest: seq<byte>, g: Grid<V>)
    requires Shaped(g, |ids|) && GoodParts(ws)
    ensures ParseParts(fl, ids, PartsBytes(ws) + rest, |ws|, g) == Parsed(true, rest, ApplyDoc(ids, PartsOf(fl, ws), g))
    decreases |ws|
  {
    if ws == [] {
      assert PartsBytes(ws) + rest == rest;
    } else {
      var w, tail := ws[0], ws[1..];
      var g' := ApplyPairs(ids, PairsOf(fl, w.pairs), w.key.arg, g);
      assert ws == [w] + tail;
      PartsRead(fl, ids, tail, rest, g');
      PartsOfFirst(fl, ids, w, tail, g);
      Regroup(PartBytes(w), PartsBytes(tail), rest);
      PartsReadFirst(fl, ids, w, PartsBytes(tail) + rest, |ws|, |tail|, g);
    }
  }

  lemma PartsReadFirst<V>(fl: Floats<V>, ids: seq<nat>, w: WirePart, s: seq<byte>, n: nat, n': nat, g: Grid<V>)
    requires Shaped(g, |ids|) && GoodPart(w) && n == n' + 1
    ensures ParseParts(fl, ids, PartBytes(w) + s, n, g)
         == ParseParts(fl, ids, s, n', ApplyPairs(ids, PairsOf(fl, w.pairs), w.key.arg, g))
  {
    var k, m := HeadOf(0, w.key), HeadOf(5, w.size) + PairsBytes(w.pairs);
    Regroup(k, m, s);
    ReadItem(0, w.key, m + s);
    PartRead(fl, ids, w.size, w.pairs, s, w.key.arg, g);
    PartsUnfold(fl, ids, k + (m + s), n, n', g, ReadHead(k + (m + s)),
                Parsed(true, s, ApplyPairs(ids, PairsOf(fl, w.pairs), w.key.arg, g)));
  }

  /** The key of the first entry, and what type of value follows it. */
  lemma Leads(key: Item, major: nat, value: Item, s: seq<byte>)
    requires Plain(key) && major < 8 && Plain(value)
    ensures var k := ReadHead(HeadOf(0, key) + (HeadOf(major, value) + s));
            k.Head? && k.major == 0 && k.rest != [] && k.rest[0] / 32 == major
  {
    ReadItem(0, key, HeadOf(major, value) + s);
  }

  lemma RegroupFive(a: seq<byte>, b: seq<byte>, c: seq<byte>, d: seq<byte>, e: seq<byte>)
    ensures (a + (b + c)) + d + e == a + (b + (c + (d + e)))
  {
    Regroup(a + (b + c), d, e);
    Regroup(a, b + c, d + e);
    Regroup(b, c, d + e);
  }

  lemma PartsLead(parts: seq<WirePart>, rest: seq<byte>)
    requires GoodParts(parts) && parts != []
    ensures var k := ReadHead(PartsBytes(parts) + rest);
            k.Head? && k.major == 0 && k.rest != [] && k.rest[0] / 32 == 5
  {
    var w := parts[0];
    var k, h, ps, t := HeadOf(0, w.key), HeadOf(5, w.size), PairsBytes(w.pairs), PartsBytes(parts[1..]);
    RegroupFive(k, h, ps, t, rest);
    Leads(w.key, 5, w.size, ps + (t + rest));
  }

  lemma PairsLead(pairs: seq<WirePair>, rest: seq<byte>)
    requires GoodPairs(pairs) && pairs != []
    ensures var k := ReadHead(PairsBytes(pairs) + rest);
            k.Head? && k.major == 0 && k.rest != [] && k.rest[0] / 32 == 7
  {
    var w := pairs[0];
    var k, v, t := HeadOf(0, w.key), HeadOf(7, w.value), PairsBytes(pairs[1..]);
    assert (k + v) + t + rest == k + (v + (t + rest));
    Leads(w.key, 7, w.value, t + rest);
  }

  /** A well-formed document is read as what it means, whatever follows it. */
  lemma DocumentRead<V>(fl: Floats<V>, ids: seq<nat>, w: Wire, rest: seq<byte>, g: Grid<V>)
    requires Shaped(g, |ids|) && Good(w)
    ensures Parse(fl, ids, WireBytes(w) + rest, g) == Parsed(true, rest, Meaning(fl, ids, w, g))
  {
    match w {
      case PerPart(size, parts) =>
        var h, body := HeadOf(5, size), PartsBytes(parts);
        Regroup(h, body, rest);
        ReadMapItem(size, body + rest);
        if parts == [] {
          assert body + rest == rest;
        } else {
          PartsLead(parts, rest);
          PartsRead(fl, ids, parts, rest, g);
          ReadsAsParts(fl, ids, h + (body + rest), ReadMap(h + (body + rest)), ReadHead(body + rest), g);
        }
      case Flat(size, pairs) =>
        var h, body := HeadOf(5, size), PairsBytes(pairs);
        Regroup(h, body, rest);
        ReadMapItem(size, body + rest);
        PairsLead(pairs, rest);
        PairsRead(fl, ids, pairs, rest, 0, g);
        ReadsAsPairs(fl, ids, h + (body + rest), ReadMap(h + (body + rest)), ReadHead(body + rest), g);
    }
  }

  // ---------------- nothing else is ----------------

  lemma PairThere<V>(fl: Floats<V>, ids: seq<nat>, s: seq<byte>, part: nat, g: Grid<V>) returns (w: WirePair)
    requires Shaped(g, |ids|) && ParsePair(fl, ids, s, part, g).ok
    ensures GoodPair(w) && s == PairBytes(w) + ParsePair(fl, ids, s, part, g).rest
    ensures ParsePair(fl, ids, s, part, g).g == Stored(fl, ids, w, part, g)
  {
    var k := ReadHead(s);
    ReadIsThere(s);
    var f := ReadHead(k.rest);
    ReadIsThere(k.rest);
    w := WirePair(Item(k.ai, k.val), Item(f.ai, f.val));
    Regroup(HeadOf(0, w.key), HeadOf(7, w.value), f.rest);
  }

  lemma PairsOk<V>(fl: Floats<V>, ids: seq<nat>, s: seq<byte>, n: nat, part: nat, g: Grid<V>)
    returns (w: WirePair, mid: seq<byte>, g': Grid<V>)
    requires Shaped(g, |ids|) && n > 0 && ParsePairs(fl, ids, s, n, part, g).ok
    ensures GoodPair(w) && s == PairBytes(w) + mid && Shaped(g', |ids|)
    ensures ParsePairs(fl, ids, mid, OneFewer(n), part, g') == ParsePairs(fl, ids, s, n, part, g)
  {
    var r := ParsePair(fl, ids, s, part, g);
    assert r.ok;
    PairsUnfold(fl, ids, s, n, OneFewer(n), part, g, r);
    w := PairThere(fl, ids, s, part, g);
    mid, g' := r.rest, r.g;
  }

  /** `s` starts with `n` pairs, written as `ws`, and `rest` follows. */
  ghost predicate PairsStand(ws: seq<WirePair>, n: nat, s: seq<byte>, rest: seq<byte>)
  {
    |ws| == n && GoodPairs(ws) && s == PairsBytes(ws) + rest
  }

  ghost predicate HasPairs(n: nat, s: seq<byte>, rest: seq<byte>)
  {
    exists ws :: PairsStand(ws, n, s, rest)
  }

  lemma PairsJoin(w: WirePair, n: nat, n': nat, s: seq<byte>, mid: seq<byte>, rest: seq<byte>)
    requires GoodPair(w) && n == n' + 1 && s == PairBytes(w) + mid && HasPairs(n', mid, rest)
    ensures HasPairs(n, s, rest)
  {
    var tail :| PairsStand(tail, n', mid, rest);
    PairsBytesFirst(w, tail);
    Regroup(PairBytes(w), PairsBytes(tail), rest);
    assert PairsStand([w] + tail, n, s, rest);
  }

  lemma PairsEnd(s: seq<byte>)
    ensures HasPairs(0, s, s)
  {
    assert PairsStand([], 0, s, s);
  }

  lemma {:induction false} PairsThere<V>(fl: Floats<V>, ids: seq<nat>, s: seq<byte>, n: nat, part: nat, g: Grid<V>)
    requires Shaped(g, |ids|) && ParsePairs(fl, ids, s, n, part, g).ok
    ensures HasPairs(n, s, ParsePairs(fl, ids, s, n, part, g).rest)
    decreases n
  {
    if n == 0 {
      PairsEnd(s);
    } else {
      var w, mid, g' := PairsOk(fl, ids, s, n, part, g);
      PairsThere(fl, ids, mid, OneFewer(n), part, g');
      PairsJoin(w, n, OneFewer(n), s, mid, ParsePairs(fl, ids, s, n, part, g).rest);
    }
  }

  lemma PartThere<V>(fl: Floats<V>, ids: seq<nat>, s: seq<byte>, key: Item, t: seq<byte>, g: Grid<V>) returns (w: WirePart)
    requires Shaped(g, |ids|) && Plain(key) && s == HeadOf(0, key) + t && ParsePart(fl, ids, t, key.arg, g).ok
    ensures GoodPart(w) && s == PartBytes(w) + ParsePart(fl, ids, t, key.arg, g).rest
  {
    var m := ReadMap(t);
    ReadIsThere(t);
    PairsThere(fl, ids, m.rest, m.val, key.arg, g);
    var ws :| PairsStand(ws, m.val, m.rest, ParsePart(fl, ids, t, key.arg, g).rest);
    w := WirePart(key, Item(m.ai, m.val), ws);
    var h, body, rest := HeadOf(5, w.size), PairsBytes(ws), ParsePart(fl, ids, t, key.arg, g).rest;
    Regroup(h, body, rest);
    Regroup(HeadOf(0, key), h + body, rest);
  }

  lemma PartsOk<V>(fl: Floats<V>, ids: seq<nat>, s: seq<byte>, n: nat, g: Grid<V>)
    returns (w: WirePart, mid: seq<byte>, g': Grid<V>)
    requires Shaped(g, |ids|) && n > 0 && ParseParts(fl, ids, s, n, g).ok
    ensures GoodPart(w) && s == PartBytes(w) + mid && Shaped(g', |ids|)
    ensures ParseParts(fl, ids, mid, OneFewer(n), g') == ParseParts(fl, ids, s, n, g)
  {
    var k := ReadHead(s);
    assert k.Head? && k.major == 0;
    var r := ParsePart(fl, ids, k.rest, k.val, g);
    assert r.ok;
    PartsUnfold(fl, ids, s, n, OneFewer(n), g, k, r);
    ReadIsThere(s);
    w := PartThere(fl, ids, s, Item(k.ai, k.val), k.rest, g);
    mid, g' := r.rest, r.g;
  }

  /** Likewise for parts. */
  ghost predicate PartsStand(ws: seq<WirePart>, n: nat, s: seq<byte>, rest: seq<byte>)
  {
    |ws| == n && GoodParts(ws) && s == PartsBytes(ws) + rest
  }

  ghost predicate HasParts(n: nat, s: seq<byte>, rest: seq<byte>)
  {
    exists ws :: PartsStand(ws, n, s, rest)
  }

  lemma PartsJoin(w: WirePart, n: nat, n': nat, s: seq<byte>, mid: seq<byte>, rest: seq<byte>)
    requires GoodPart(w) && n == n' + 1 && s == PartBytes(w) + mid && HasParts(n', mid, rest)
    ensures HasParts(n, s, rest)
  {
    var tail :| PartsStand(tail, n', mid, rest);
    PartsBytesFirst(w, tail);
    Regroup(PartBytes(w), PartsBytes(tail), rest);
    assert PartsStand([w] + tail, n, s, rest);
  }

  lemma PartsEnd(s: seq<byte>)
    ensures HasParts(0, s, s)
  {
    assert PartsStand([], 0, s, s);
  }

  lemma {:induction false} PartsThere<V>(fl: Floats<V>, ids: seq<nat>, s: seq<byte>, n: nat, g: Grid<V>)
    requires Shaped(g, |ids|) && ParseParts(fl, ids, s, n, g).ok
    ensures HasParts(n, s, ParseParts(fl, ids, s, n, g).rest)
    decreases n
  {
    if n == 0 {
      PartsEnd(s);
    } else {
      var w, mid, g' := PartsOk(fl, ids, s, n, g);
      PartsThere(fl, ids, mid, OneFewer(n), g');
      PartsJoin(w, n, OneFewer(n), s, mid, ParseParts(fl, ids, s, n, g).rest);
    }
  }

  /** Whatever is accepted starts with a well-formed document. */
  lemma AcceptedIsDocument<V>(fl: Floats<V>, ids: seq<nat>, s: seq<byte>, g: Grid<V>) returns (w: Wire)
    requires Shaped(g, |ids|) && Parse(fl, ids, s, g).ok
    ensures Good(w) && s == WireBytes(w) + Parse(fl, ids, s, g).rest
  {
    var m, rest := ReadMap(s), Parse(fl, ids, s, g).rest;
    ReadIsThere(s);
    var size := Item(m.ai, m.val);
    if m.val == 0 {
      w := PerPart(size, []);
      assert HeadOf(5, size) + [] == HeadOf(5, size);
    } else if ReadHead(m.rest).rest[0] / 32 == 5 {
      ReadsAsParts(fl, ids, s, m, ReadHead(m.rest), g);
      PartsThere(fl, ids, m.rest, m.val, g);
      var parts :| PartsStand(parts, m.val, m.rest, rest);
      w := PerPart(size, parts);
      Regroup(HeadOf(5, size), PartsBytes(parts), rest);
    } else {
      ReadsAsPairs(fl, ids, s, m, ReadHead(m.rest), g);
      PairsThere(fl, ids, m.rest, m.val, 0, g);
      var pairs :| PairsStand(pairs, m.val, m.rest, rest);
      w := Flat(size, pairs);
      Regroup(HeadOf(5, size), PairsBytes(pairs), rest);
    }
  }

  ghost predicate StartsWithDocument(s: seq<byte>)
  {
    exists w :: Good(w) && WireBytes(w) <= s
  }

  lemma DocumentAccepted<V>(fl: Floats<V>, ids: seq<nat>, s: seq<byte>, w: Wire, g: Grid<V>)
    requires Shaped(g, |ids|) && Good(w) && WireBytes(w) <= s
    ensures Parse(fl, ids, s, g).ok
  {
    var rest := s[|WireBytes(w)|..];
    assert s == WireBytes(w) + rest;
    DocumentRead(fl, ids, w, rest, g);
  }

  /** The decoder accepts exactly what starts with a well-formed document. */
  lemma AcceptsExactly<V>(fl: Floats<V>, ids: seq<nat>, s: seq<byte>, g: Grid<V>)
    requires Shaped(g, |ids|)
    ensures Parse(fl, ids, s, g).ok <==> StartsWithDocument(s)
  {
    if Parse(fl, ids, s, g).ok {
      var w := AcceptedIsDocument(fl, ids, s, g);
      assert WireBytes(w) <= s;
    } else if StartsWithDocument(s) {
      var w :| Good(w) && WireBytes(w) <= s;
      DocumentAccepted(fl, ids, s, w, g);
    }
  }

  lemma Rejoin(s: seq<byte>, cut: nat, a: seq<byte>, b: seq<byte>)
    requires cut < |s| && s[..cut] == a + b
    ensures s == a + (b + s[cut..]) && b + s[cut..] != []
  {
    assert s == s[..cut] + s[cut..];
  }

  /** A document cut short anywhere is rejected. */
  lemma CutShortIsRejected<V>(fl: Floats<V>, ids: seq<nat>, w: Wire, cut: nat, g: Grid<V>)
    requires Shaped(g, |ids|) && Good(w) && cut < |WireBytes(w)|
    ensures !Parse(fl, ids, WireBytes(w)[..cut], g).ok
  {
    var s, r := WireBytes(w), Parse(fl, ids, WireBytes(w)[..cut], g);
    if r.ok {
      var v := AcceptedIsDocument(fl, ids, s[..cut], g);
      Rejoin(s, cut, WireBytes(v), r.rest);
      ReadTwice(fl, ids, w, v, r.rest + s[cut..], g);
    }
  }

  lemma ReadTwice<V>(fl: Floats<V>, ids: seq<nat>, w: Wire, v: Wire, rest: seq<byte>, g: Grid<V>)
    requires Shaped(g, |ids|) && Good(w) && Good(v) && WireBytes(w) == WireBytes(v) + rest
    ensures rest == []
  {
    DocumentRead(fl, ids, w, [], g);
    assert WireBytes(w) + [] == WireBytes(w);
    DocumentRead(fl, ids, v, rest, g);
  }
}
