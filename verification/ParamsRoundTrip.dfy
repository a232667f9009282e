/** The params codec: parsing a document gives what the document means, so encoding and parsing is
    the identity on grids, the two formats agree, and what is not understood changes nothing. */
module ParamsRoundTrip {
  import opened Octets
  import opened Counting
  import opened Cbor
  import opened Sizes
  import opened ParamsBlob

  // ---------------- parsing back ----------------

  lemma ValueBack<V(!new)>(fl: Floats<V>, ids: seq<nat>, v: V, rest: seq<byte>, part: nat, id: nat, g: Grid<V>)
    requires Faithful(fl) && Shaped(g, |ids|)
    ensures ParseValue(fl, ids, PutFloat(fl, v) + rest, part, id, g)
         == Parsed(true, rest, if part < NPARTS then GridSet(ids, g, part, id, v) else g)
    ensures |PutFloat(fl, v)| > 0 && PutFloat(fl, v)[0] / 32 == 7
  {
    ReadHeadWith(7, fl.ai(v), fl.bits(v), rest);
  }

  lemma PairBack<V(!new)>(fl: Floats<V>, ids: seq<nat>, p: Pair<V>, rest: seq<byte>, part: nat, g: Grid<V>)
    requires Faithful(fl) && Shaped(g, |ids|) && p.id < U64
    ensures ParsePair(fl, ids, PutPair(fl, p) + rest, part, g)
         == Parsed(true, rest, if part < NPARTS then GridSet(ids, g, part, p.id, p.val) else g)
  {
    var k, f := PutHead(0, p.id), PutFloat(fl, p.val);
    assert k + f + rest == k + (f + rest);
    ReadPutHead(0, p.id, f + rest);
    ValueBack(fl, ids, p.val, rest, part, p.id, g);
  }

  lemma Regroup(a: seq<byte>, b: seq<byte>, c: seq<byte>)
    ensures a + b + c == a + (b + c)
  {
  }

  lemma PairsFront<V(!new)>(fl: Floats<V>, ids: seq<nat>, p: Pair<V>, rest: seq<byte>, n: nat, n': nat,
        part: nat, g: Grid<V>, g': Grid<V>)
    requires Faithful(fl) && Shaped(g, |ids|) && p.id < U64 && n == n' + 1
    requires g' == if part < NPARTS then GridSet(ids, g, part, p.id, p.val) else g
    ensures Shaped(g', |ids|)
    ensures ParsePairs(fl, ids, PutPair(fl, p) + rest, n, part, g) == ParsePairs(fl, ids, rest, n', part, g')
  {
    PairBack(fl, ids, p, rest, part, g);
    PairsUnfold(fl, ids, PutPair(fl, p) + rest, n, n', part, g, Parsed(true, rest, g'));
  }

  lemma PairsUnfold<V>(fl: Floats<V>, ids: seq<nat>, s: seq<byte>, n: nat, n': nat, part: nat, g: Grid<V>,
        r: Parsed<V>)
    requires Shaped(g, |ids|) && n == n' + 1 && r == ParsePair(fl, ids, s, part, g) && r.ok
    ensures ParsePairs(fl, ids, s, n, part, g) == ParsePairs(fl, ids, r.rest, n', part, r.g)
  {
    assert OneFewer(n) == n';
  }

  lemma {:induction false} PairsBack<V(!new)>(fl: Floats<V>, ids: seq<nat>, ps: seq<Pair<V>>, rest: seq<byte>,
        part: nat, g: Grid<V>)
    requires Faithful(fl) && Shaped(g, |ids|) && PairsFit(ps)
    ensures ParsePairs(fl, ids, PutPairs(fl, ps) + rest, |ps|, part, g) == Parsed(true, rest, ApplyPairs(ids, ps, part, g))
    decreases |ps|
  {
    if ps == [] {
      assert PutPairs(fl, ps) + rest == rest;
    } else {
      var p, tail := ps[0], ps[1..];
      var g' := if part < NPARTS then GridSet(ids, g, part, p.id, p.val) else g;
      var s, n := PutPairs(fl, tail) + rest, |tail|;
      assert ParsePairs(fl, ids, s, n, part, g') == Parsed(true, rest, ApplyPairs(ids, tail, part, g')) by {
        PairsBack(fl, ids, tail, rest, part, g');
      }
      assert ParsePairs(fl, ids, PutPairs(fl, ps) + rest, |ps|, part, g) == ParsePairs(fl, ids, s, n, part, g') by {
        Regroup(PutPair(fl, p), PutPairs(fl, tail), rest);
        PairsFront(fl, ids, p, s, |ps|, n, part, g, g');
      }
      assert ApplyPairs(ids, ps, part, g) == ApplyPairs(ids, tail, part, g');
    }
  }

  /** Every pair takes at least two bytes, and so does every part. */
  lemma {:induction false} PairsTakeSpace<V(!new)>(fl: Floats<V>, ps: seq<Pair<V>>)
    requires Faithful(fl)
    ensures |PutPairs(fl, ps)| >= 2 * |ps|
  {
    if ps != [] {
      PairsTakeSpace(fl, ps[1..]);
      assert 25 <= fl.ai(ps[0].val) <= 27;
    }
  }

  lemma {:induction false} PartsTakeSpace<V>(fl: Floats<V>, doc: seq<PartMap<V>>)
    ensures |PutParts(fl, doc)| >= 2 * |doc|
  {
    if doc != [] {
      PartsTakeSpace(fl, doc[1..]);
    }
  }

  lemma PartBack<V(!new)>(fl: Floats<V>, ids: seq<nat>, ps: seq<Pair<V>>, rest: seq<byte>, part: nat, g: Grid<V>)
    requires Faithful(fl) && Shaped(g, |ids|) && PairsFit(ps)
    ensures ParsePart(fl, ids, PutHead(5, |ps|) + PutPairs(fl, ps) + rest, part, g)
         == Parsed(true, rest, ApplyPairs(ids, ps, part, g))
  {
    var h, t := PutHead(5, |ps|), PutPairs(fl, ps);
    Regroup(h, t, rest);
    PairsTakeSpace(fl, ps);
    ReadPutMap(|ps|, t + rest);
    PairsBack(fl, ids, ps, rest, part, g);
  }

  lemma PartsFront<V(!new)>(fl: Floats<V>, ids: seq<nat>, d: PartMap<V>, rest: seq<byte>, n: nat, n': nat, g: Grid<V>)
    requires Faithful(fl) && Shaped(g, |ids|) && d.part < U64 && PairsFit(d.pairs) && n == n' + 1
    ensures ParseParts(fl, ids, PutPart(fl, d) + rest, n, g)
         == ParseParts(fl, ids, rest, n', ApplyPairs(ids, d.pairs, d.part, g))
  {
    var k, m := PutHead(0, d.part), PutHead(5, |d.pairs|) + PutPairs(fl, d.pairs);
    Regroup(k, m, rest);
    ReadPutHead(0, d.part, m + rest);
    PartBack(fl, ids, d.pairs, rest, d.part, g);
    var s := k + (m + rest);
    PartsUnfold(fl, ids, s, n, n', g, ReadHead(s), Parsed(true, rest, ApplyPairs(ids, d.pairs, d.part, g)));
  }

  lemma PartsUnfold<V>(fl: Floats<V>, ids: seq<nat>, s: seq<byte>, n: nat, n': nat, g: Grid<V>, k: Head, r: Parsed<V>)
    requires Shaped(g, |ids|) && n == n' + 1 && k == ReadHead(s) && k.Head? && k.major == 0
    requires r == ParsePart(fl, ids, k.rest, k.val, g) && r.ok
    ensures ParseParts(fl, ids, s, n, g) == ParseParts(fl, ids, r.rest, n', r.g)
  {
    assert OneFewer(n) == n';
  }

  lemma {:induction false} PartsBack<V(!new)>(fl: Floats<V>, ids: seq<nat>, doc: seq<PartMap<V>>,
        rest: seq<byte>, g: Grid<V>)
    requires Faithful(fl) && Shaped(g, |ids|) && DocFits(doc)
    ensures ParseParts(fl, ids, PutParts(fl, doc) + rest, |doc|, g) == Parsed(true, rest, ApplyDoc(ids, doc, g))
    decreases |doc|
  {
    if doc == [] {
      assert PutParts(fl, doc) + rest == rest;
    } else {
      var d, tail := doc[0], doc[1..];
      var g', s, n := ApplyPairs(ids, d.pairs, d.part, g), PutParts(fl, tail) + rest, |tail|;
      assert ParseParts(fl, ids, s, n, g') == Parsed(true, rest, ApplyDoc(ids, tail, g')) by {
        PartsBack(fl, ids, tail, rest, g');
      }
      assert ParseParts(fl, ids, PutParts(fl, doc) + rest, |doc|, g) == ParseParts(fl, ids, s, n, g') by {
        Regroup(PutPart(fl, d), PutParts(fl, tail), rest);
        PartsFront(fl, ids, d, s, |doc|, n, g);
      }
      assert ApplyDoc(ids, doc, g) == ApplyDoc(ids, tail, g');
    }
  }

  /** The first value is a map: the whole body is read as parts. */
  lemma ReadsAsParts<V>(fl: Floats<V>, ids: seq<nat>, s: seq<byte>, m: Head, k: Head, g: Grid<V>)
    requires Shaped(g, |ids|) && m == ReadMap(s) && m.Head? && m.val > 0
    requires k == ReadHead(m.rest) && k.Head? && k.major == 0 && k.rest != [] && k.rest[0] / 32 == 5
    ensures Parse(fl, ids, s, g) == ParseParts(fl, ids, m.rest, m.val, g)
  {
  }

  /** The first value is a float: the whole body is read as the pairs of part 0. */
  lemma ReadsAsPairs<V>(fl: Floats<V>, ids: seq<nat>, s: seq<byte>, m: Head, k: Head, g: Grid<V>)
    requires Shaped(g, |ids|) && m == ReadMap(s) && m.Head? && m.val > 0
    requires k == ReadHead(m.rest) && k.Head? && k.major == 0 && k.rest != [] && k.rest[0] / 32 == 7
    ensures Parse(fl, ids, s, g) == ParsePairs(fl, ids, m.rest, m.val, 0, g)
  {
  }

  /** A per-part document parses to what it means, whatever parts and ids it names and whatever
      follows it. */
  lemma DocBack<V(!new)>(fl: Floats<V>, ids: seq<nat>, doc: seq<PartMap<V>>, rest: seq<byte>, g: Grid<V>)
    requires Faithful(fl) && Shaped(g, |ids|) && DocFits(doc)
    ensures Parse(fl, ids, PutDoc(fl, doc) + rest, g) == Parsed(true, rest, ApplyDoc(ids, doc, g))
  {
    var h, body := PutHead(5, |doc|), PutParts(fl, doc);
    assert h + body + rest == h + (body + rest);
    PartsTakeSpace(fl, doc);
    ReadPutMap(|doc|, body + rest);
    PartsBack(fl, ids, doc, rest, g);
    if doc == [] {
      assert body + rest == rest;
    } else {
      var k := FirstPart(fl, doc, rest);
      ReadsAsParts(fl, ids, h + (body + rest), ReadMap(h + (body + rest)), k, g);
    }
  }

  lemma FirstPart<V>(fl: Floats<V>, doc: seq<PartMap<V>>, rest: seq<byte>) returns (k: Head)
    requires DocFits(doc) && doc != []
    ensures k == ReadHead(PutParts(fl, doc) + rest) && k.Head? && k.major == 0 && k.rest != [] && k.rest[0] / 32 == 5
  {
    var d := doc[0];
    var p, m, t := PutHead(0, d.part), PutHead(5, |d.pairs|) + PutPairs(fl, d.pairs), PutParts(fl, doc[1..]);
    assert PutParts(fl, doc) + rest == p + (m + (t + rest));
    ReadPutHead(0, d.part, m + (t + rest));
    k := ReadHead(PutParts(fl, doc) + rest);
  }

  /** A non-empty flat map parses like the same map under part 0. */
  lemma FlatIsPartZero<V(!new)>(fl: Floats<V>, ids: seq<nat>, ps: seq<Pair<V>>, g: Grid<V>)
    requires Faithful(fl) && Shaped(g, |ids|) && PairsFit(ps) && ps != []
    ensures Parse(fl, ids, PutFlat(fl, ps), g) == Parse(fl, ids, PutDoc(fl, [PartMap(0, ps)]), g)
    ensures Parse(fl, ids, PutFlat(fl, ps), g) == Parsed(true, [], ApplyPairs(ids, ps, 0, g))
  {
    FlatBack(fl, ids, ps, g);
    var doc := [PartMap(0, ps)];
    DocBack(fl, ids, doc, [], g);
    assert PutDoc(fl, doc) + [] == PutDoc(fl, doc);
    assert doc[1..] == [];
    assert ApplyDoc(ids, doc, g) == ApplyPairs(ids, ps, 0, g);
  }

  lemma FlatBack<V(!new)>(fl: Floats<V>, ids: seq<nat>, ps: seq<Pair<V>>, g: Grid<V>)
    requires Faithful(fl) && Shaped(g, |ids|) && PairsFit(ps) && ps != []
    ensures Parse(fl, ids, PutFlat(fl, ps), g) == Parsed(true, [], ApplyPairs(ids, ps, 0, g))
  {
    var body := PutPairs(fl, ps);
    PairsTakeSpace(fl, ps);
    ReadPutMap(|ps|, body);
    PairsBack(fl, ids, ps, [], 0, g);
    assert body + [] == body;
    var k := FirstPair(fl, ps);
    ReadsAsPairs(fl, ids, PutFlat(fl, ps), ReadMap(PutFlat(fl, ps)), k, g);
  }

  /** A float starts with its major type. */
  lemma FloatLeads<V(!new)>(fl: Floats<V>, v: V)
    requires Faithful(fl)
    ensures PutFloat(fl, v) != [] && PutFloat(fl, v)[0] / 32 == 7
  {
    assert 25 <= fl.ai(v) <= 27;
  }

  lemma PairsStart<V>(fl: Floats<V>, ps: seq<Pair<V>>, p: seq<byte>, f: seq<byte>, t: seq<byte>)
    requires ps != [] && p == PutHead(0, ps[0].id) && f == PutFloat(fl, ps[0].val) && t == PutPairs(fl, ps[1..])
    ensures PutPairs(fl, ps) == p + (f + t)
  {
    assert PutPair(fl, ps[0]) + t == p + (f + t);
  }

  lemma FirstPair<V(!new)>(fl: Floats<V>, ps: seq<Pair<V>>) returns (k: Head)
    requires Faithful(fl) && PairsFit(ps) && ps != []
    ensures k == ReadHead(PutPairs(fl, ps)) && k.Head? && k.major == 0 && k.rest != [] && k.rest[0] / 32 == 7
  {
    var p, f, t := PutHead(0, ps[0].id), PutFloat(fl, ps[0].val), PutPairs(fl, ps[1..]);
    PairsStart(fl, ps, p, f, t);
    FloatLeads(fl, ps[0].val);
    ReadPutHead(0, ps[0].id, f + t);
    k := ReadHead(p + (f + t));
  }

  // ---------------- what is not understood changes nothing ----------------

  lemma {:induction false} ApplyPairsAppend<V>(ids: seq<nat>, a: seq<Pair<V>>, b: seq<Pair<V>>, part: nat, g: Grid<V>)
    requires Shaped(g, |ids|)
    ensures ApplyPairs(ids, a + b, part, g) == ApplyPairs(ids, b, part, ApplyPairs(ids, a, part, g))
    decreases |a|
  {
    if a == [] {
      assert a + b == b;
    } else {
      assert (a + b)[1..] == a[1..] + b && (a + b)[0] == a[0];
      ApplyPairsAppend(ids, a[1..], b, part, if part < NPARTS then GridSet(ids, g, part, a[0].id, a[0].val) else g);
    }
  }

  lemma {:induction false} ApplyDocAppend<V>(ids: seq<nat>, a: seq<PartMap<V>>, b: seq<PartMap<V>>, g: Grid<V>)
    requires Shaped(g, |ids|)
    ensures ApplyDoc(ids, a + b, g) == ApplyDoc(ids, b, ApplyDoc(ids, a, g))
    decreases |a|
  {
    if a == [] {
      assert a + b == b;
    } else {
      assert (a + b)[1..] == a[1..] + b && (a + b)[0] == a[0];
      ApplyDocAppend(ids, a[1..], b, ApplyPairs(ids, a[0].pairs, a[0].part, g));
    }
  }

  lemma {:induction false} NoSuchPart<V>(ids: seq<nat>, ps: seq<Pair<V>>, part: nat, g: Grid<V>)
    requires Shaped(g, |ids|) && part >= NPARTS
    ensures ApplyPairs(ids, ps, part, g) == g
  {
    if ps != [] {
      NoSuchPart(ids, ps[1..], part, g);
    }
  }

  /** A part out of range, anywhere in a document, does not change the rest of the result. */
  lemma ExtraPartIgnored<V(!new)>(fl: Floats<V>, ids: seq<nat>, a: seq<PartMap<V>>, x: PartMap<V>,
        b: seq<PartMap<V>>, g: Grid<V>)
    requires Faithful(fl) && Shaped(g, |ids|) && DocFits(a + [x] + b) && DocFits(a + b) && x.part >= NPARTS
    ensures Parse(fl, ids, PutDoc(fl, a + [x] + b), g) == Parse(fl, ids, PutDoc(fl, a + b), g)
  {
    DocBack(fl, ids, a + [x] + b, [], g);
    DocBack(fl, ids, a + b, [], g);
    assert PutDoc(fl, a + [x] + b) + [] == PutDoc(fl, a + [x] + b) && PutDoc(fl, a + b) + [] == PutDoc(fl, a + b);
    ApplyDocAppend(ids, a + [x], b, g);
    ApplyDocAppend(ids, a, [x], g);
    ApplyDocAppend(ids, a, b, g);
    NoSuchPart(ids, x.pairs, x.part, ApplyDoc(ids, a, g));
    assert [x][1..] == [];
  }

  /** An unknown id, anywhere in a part's map, does not change the result. */
  lemma ExtraIdIgnored<V(!new)>(fl: Floats<V>, ids: seq<nat>, a: seq<PartMap<V>>, b: seq<PartMap<V>>, part: nat,
        ps: seq<Pair<V>>,
                                p: Pair<V>, qs: seq<Pair<V>>, g: Grid<V>)
    requires Faithful(fl) && Shaped(g, |ids|) && p.id !in ids
    requires DocFits(a + [PartMap(part, ps + [p] + qs)] + b) && DocFits(a + [PartMap(part, ps + qs)] + b)
    ensures Parse(fl, ids, PutDoc(fl, a + [PartMap(part, ps + [p] + qs)] + b), g)
         == Parse(fl, ids, PutDoc(fl, a + [PartMap(part, ps + qs)] + b), g)
  {
    var d, d' := a + [PartMap(part, ps + [p] + qs)] + b, a + [PartMap(part, ps + qs)] + b;
    DocBack(fl, ids, d, [], g);
    DocBack(fl, ids, d', [], g);
    assert PutDoc(fl, d) + [] == PutDoc(fl, d) && PutDoc(fl, d') + [] == PutDoc(fl, d');
    SameMiddle(ids, a, PartMap(part, ps + [p] + qs), PartMap(part, ps + qs), b, g);
    UnknownId(ids, ps, p, qs, part, ApplyDoc(ids, a, g));
  }

  lemma SameMiddle<V>(ids: seq<nat>, a: seq<PartMap<V>>, x: PartMap<V>, y: PartMap<V>, b: seq<PartMap<V>>, g: Grid<V>)
    requires Shaped(g, |ids|)
    ensures ApplyPairs(ids, x.pairs, x.part, ApplyDoc(ids, a, g)) == ApplyPairs(ids, y.pairs, y.part, ApplyDoc(ids, a, g))
      ==> ApplyDoc(ids, a + [x] + b, g) == ApplyDoc(ids, a + [y] + b, g)
  {
    ApplyDocAppend(ids, a + [x], b, g);
    ApplyDocAppend(ids, a + [y], b, g);
    ApplyDocAppend(ids, a, [x], g);
    ApplyDocAppend(ids, a, [y], g);
    assert [x][1..] == [] && [y][1..] == [];
  }

  lemma UnknownId<V>(ids: seq<nat>, ps: seq<Pair<V>>, p: Pair<V>, qs: seq<Pair<V>>, part: nat, g: Grid<V>)
    requires Shaped(g, |ids|) && p.id !in ids
    ensures ApplyPairs(ids, ps + [p] + qs, part, g) == ApplyPairs(ids, ps + qs, part, g)
  {
    ApplyPairsAppend(ids, ps + [p], qs, part, g);
    ApplyPairsAppend(ids, ps, [p], part, g);
    ApplyPairsAppend(ids, ps, qs, part, g);
    assert [p][1..] == [];
  }

  // ---------------- the whole grid ----------------

  function RowPairs<V>(ids: seq<nat>, row: seq<V>): (ps: seq<Pair<V>>)
    requires |row| == |ids|
    ensures |ps| == |ids|
  {
    seq(|ids|, j requires 0 <= j < |ids| => Pair(ids[j], row[j]))
  }

  function GridDoc<V>(ids: seq<nat>, v: seq<seq<V>>): (doc: seq<PartMap<V>>)
    requires |v| == NPARTS && forall p :: 0 <= p < NPARTS ==> |v[p]| == |ids|
    ensures |doc| == NPARTS
  {
    seq(NPARTS, p requires 0 <= p < NPARTS => PartMap(p, RowPairs(ids, v[p])))
  }

  function Trues(n: nat): (r: seq<bool>)
    ensures |r| == n
  {
    seq(n, j => true)
  }

  lemma ColumnOf(ids: seq<nat>, j: nat)
    requires NoRepeats(ids) && j < |ids|
    ensures Column(ids, ids[j]) == j
  {
  }

  lemma {:induction false} RowApplied<V>(ids: seq<nat>, row: seq<V>, part: nat, j: nat, g: Grid<V>)
    requires NoRepeats(ids) && |row| == |ids| && Shaped(g, |ids|) && part < NPARTS && j <= |ids|
    ensures ApplyPairs(ids, RowPairs(ids, row)[j..], part, g)
         == Grid(g.v[part := g.v[part][..j] + row[j..]], g.present[part := g.present[part][..j] + Trues(|ids| - j)])
    decreases |ids| - j
  {
    if j == |ids| {
      assert g.v[part][..j] + row[j..] == g.v[part];
      assert g.present[part][..j] + Trues(0) == g.present[part];
    } else {
      ColumnOf(ids, j);
      var g' := GridSet(ids, g, part, ids[j], row[j]);
      assert RowPairs(ids, row)[j..][1..] == RowPairs(ids, row)[j + 1..];
      RowApplied(ids, row, part, j + 1, g');
      assert g'.v[part][..j + 1] + row[j + 1..] == g.v[part][..j] + row[j..];
      assert g'.present[part][..j + 1] + Trues(|ids| - (j + 1)) == g.present[part][..j] + Trues(|ids| - j);
    }
  }

  lemma WholeRow<V>(ids: seq<nat>, row: seq<V>, part: nat, g: Grid<V>)
    requires NoRepeats(ids) && |row| == |ids| && Shaped(g, |ids|) && part < NPARTS
    ensures ApplyPairs(ids, RowPairs(ids, row), part, g) == Grid(g.v[part := row], g.present[part := Trues(|ids|)])
  {
    RowApplied(ids, row, part, 0, g);
    assert RowPairs(ids, row)[0..] == RowPairs(ids, row);
    assert g.v[part][..0] + row[0..] == row && g.present[part][..0] + Trues(|ids|) == Trues(|ids|);
  }

  function AllTrue(n: nat, k: nat): (r: seq<seq<bool>>)
    ensures |r| == k
  {
    seq(k, p => Trues(n))
  }

  lemma {:induction false} DocApplied<V>(ids: seq<nat>, v: seq<seq<V>>, p: nat, g: Grid<V>)
    requires NoRepeats(ids) && |v| == NPARTS && (forall i :: 0 <= i < NPARTS ==> |v[i]| == |ids|)
    requires Shaped(g, |ids|) && p <= NPARTS
    ensures ApplyDoc(ids, GridDoc(ids, v)[p..], g)
         == Grid(g.v[..p] + v[p..], g.present[..p] + AllTrue(|ids|, NPARTS - p))
    decreases NPARTS - p
  {
    if p == NPARTS {
      assert g.v[..p] + v[p..] == g.v;
      assert g.present[..p] + AllTrue(|ids|, 0) == g.present;
    } else {
      WholeRow(ids, v[p], p, g);
      var g' := Grid(g.v[p := v[p]], g.present[p := Trues(|ids|)]);
      assert GridDoc(ids, v)[p..][1..] == GridDoc(ids, v)[p + 1..];
      DocApplied(ids, v, p + 1, g');
      assert g'.v[..p + 1] + v[p + 1..] == g.v[..p] + v[p..];
      assert g'.present[..p + 1] + AllTrue(|ids|, NPARTS - (p + 1)) == g.present[..p] + AllTrue(|ids|, NPARTS - p);
    }
  }

  /** Parsing an encoded grid returns the whole grid, everything present, over any earlier contents. */
  lemma GridRoundTrip<V(!new)>(fl: Floats<V>, ids: seq<nat>, v: seq<seq<V>>, g: Grid<V>)
    requires Faithful(fl) && NoRepeats(ids) && |ids| < U64 && (forall j :: 0 <= j < |ids| ==> ids[j] < U64)
    requires |v| == NPARTS && (forall p :: 0 <= p < NPARTS ==> |v[p]| == |ids|) && Shaped(g, |ids|)
    ensures Parse(fl, ids, PutDoc(fl, GridDoc(ids, v)), g) == Parsed(true, [], Grid(v, AllTrue(|ids|, NPARTS)))
  {
    var doc := GridDoc(ids, v);
    DocBack(fl, ids, doc, [], g);
    assert PutDoc(fl, doc) + [] == PutDoc(fl, doc);
    DocApplied(ids, v, 0, g);
    assert doc[0..] == doc;
    assert g.v[..0] + v[0..] == v && g.present[..0] + AllTrue(|ids|, NPARTS) == AllTrue(|ids|, NPARTS);
  }
}
