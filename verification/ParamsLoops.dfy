/** The params codec as it runs: an encoder that appends part after part, and a decoder that moves a
    cursor over the bytes and fills the grid, on failure leaving it as filled so far. */
module ParamsLoops {
  import opened Octets
  import opened Cbor
  import opened Sizes
  import opened ParamsBlob
  import opened ParamsRoundTrip

  lemma PairsTail<V>(fl: Floats<V>, ps: seq<Pair<V>>, i: nat)
    requires i < |ps|
    ensures PutPairs(fl, ps[i..]) == PutPair(fl, ps[i]) + PutPairs(fl, ps[i + 1..])
  {
    assert ps[i..][1..] == ps[i + 1..];
  }

  lemma PartsTail<V>(fl: Floats<V>, doc: seq<PartMap<V>>, i: nat)
    requires i < |doc|
    ensures PutParts(fl, doc[i..]) == PutPart(fl, doc[i]) + PutParts(fl, doc[i + 1..])
  {
    assert doc[i..][1..] == doc[i + 1..];
  }

  method EncodeRow<V>(fl: Floats<V>, ids: seq<nat>, row: seq<V>) returns (out: seq<byte>)
    requires |row| == |ids|
    ensures out == PutPairs(fl, RowPairs(ids, row))
  {
    ghost var ps := RowPairs(ids, row);
    out := [];
    for i := 0 to |ids|
      invariant out + PutPairs(fl, ps[i..]) == PutPairs(fl, ps)
    {
      PairsTail(fl, ps, i);
      var k, f := PutHead(0, ids[i]), PutFloat(fl, row[i]);
      assert PutPair(fl, ps[i]) == k + f;
      Regroup(out, k + f, PutPairs(fl, ps[i + 1..]));
      out := out + (k + f);
    }
    assert out + [] == out;
  }

  /** Encode the whole grid: parts ascending, params in table order. */
  method EncodeParams<V>(fl: Floats<V>, ids: seq<nat>, v: seq<seq<V>>) returns (out: seq<byte>)
    requires |v| == NPARTS && forall p :: 0 <= p < NPARTS ==> |v[p]| == |ids|
    ensures out == PutDoc(fl, GridDoc(ids, v))
  {
    ghost var doc := GridDoc(ids, v);
    out := PutHead(5, NPARTS);
    for p := 0 to NPARTS
      invariant out + PutParts(fl, doc[p..]) == PutDoc(fl, doc)
    {
      PartsTail(fl, doc, p);
      var row := EncodeRow(fl, ids, v[p]);
      var part := PutHead(0, p) + (PutHead(5, |ids|) + row);
      assert PutPart(fl, doc[p]) == part;
      Regroup(out, part, PutParts(fl, doc[p + 1..]));
      out := out + part;
    }
    assert out + [] == out;
  }

  lemma PairsFail<V>(fl: Floats<V>, ids: seq<nat>, s: seq<byte>, n: nat, part: nat, g: Grid<V>, r: Parsed<V>)
    requires Shaped(g, |ids|) && n > 0 && r == ParsePair(fl, ids, s, part, g) && !r.ok
    ensures ParsePairs(fl, ids, s, n, part, g) == r
  {
  }

  lemma PartsFail<V>(fl: Floats<V>, ids: seq<nat>, s: seq<byte>, n: nat, g: Grid<V>, k: Head, r: Parsed<V>)
    requires Shaped(g, |ids|) && n > 0 && k == ReadHead(s)
    requires if k.NoHead? || k.major != 0 then r == Parsed(false, s, g) else r == ParsePart(fl, ids, k.rest, k.val, g) && !r.ok
    ensures ParseParts(fl, ids, s, n, g) == r
  {
  }

  /** `n` pairs: every pair is consumed whole, or the parse fails. */
  method DecodePairs<V>(fl: Floats<V>, ids: seq<nat>, s: seq<byte>, n: nat, part: nat,
        g: Grid<V>) returns (r: Parsed<V>)
    requires Shaped(g, |ids|)
    ensures Shaped(r.g, |ids|) && r == ParsePairs(fl, ids, s, n, part, g)
  {
    ghost var total := ParsePairs(fl, ids, s, n, part, g);
    var cur, grid, left := s, g, n;
    while left > 0
      invariant Shaped(grid, |ids|) && ParsePairs(fl, ids, cur, left, part, grid) == total
      decreases left
    {
      var pair, less := ParsePair(fl, ids, cur, part, grid), left - 1;
      if !pair.ok {
        PairsFail(fl, ids, cur, left, part, grid, pair);
        return pair;
      }
      PairsUnfold(fl, ids, cur, left, less, part, grid, pair);
      cur, grid, left := pair.rest, pair.g, less;
    }
    r := Parsed(true, cur, grid);
  }

  method DecodePart<V>(fl: Floats<V>, ids: seq<nat>, s: seq<byte>, part: nat, g: Grid<V>) returns (r: Parsed<V>)
    requires Shaped(g, |ids|)
    ensures Shaped(r.g, |ids|) && r == ParsePart(fl, ids, s, part, g)
  {
    var m := ReadMap(s);
    if m.NoHead? { return Parsed(false, s, g); }
    r := DecodePairs(fl, ids, m.rest, m.val, part, g);
  }

  method DecodeParts<V>(fl: Floats<V>, ids: seq<nat>, s: seq<byte>, n: nat, g: Grid<V>) returns (r: Parsed<V>)
    requires Shaped(g, |ids|)
    ensures Shaped(r.g, |ids|) && r == ParseParts(fl, ids, s, n, g)
  {
    ghost var total := ParseParts(fl, ids, s, n, g);
    var cur, grid, left := s, g, n;
    while left > 0
      invariant Shaped(grid, |ids|) && ParseParts(fl, ids, cur, left, grid) == total
      decreases left
    {
      var k, less := ReadHead(cur), left - 1;
      if k.NoHead? || k.major != 0 {
        r := Parsed(false, cur, grid);
        PartsFail(fl, ids, cur, left, grid, k, r);
        return;
      }
      var part := DecodePart(fl, ids, k.rest, k.val, grid);
      if !part.ok {
        PartsFail(fl, ids, cur, left, grid, k, part);
        return part;
      }
      PartsUnfold(fl, ids, cur, left, less, grid, k, part);
      cur, grid, left := part.rest, part.g, less;
    }
    r := Parsed(true, cur, grid);
  }

  /** How the parse goes on after the first part, whose key `k` told the format. */
  lemma AfterFirstPart<V>(fl: Floats<V>, ids: seq<nat>, s: seq<byte>, m: Head, k: Head, g: Grid<V>, n: nat, p: Parsed<V>)
    requires Shaped(g, |ids|) && m == ReadMap(s) && m.Head? && m.val == n + 1
    requires k == ReadHead(m.rest) && k.Head? && k.major == 0 && k.rest != [] && k.rest[0] / 32 == 5
    requires p == ParsePart(fl, ids, k.rest, k.val, g)
    ensures Parse(fl, ids, s, g) == if p.ok then ParseParts(fl, ids, p.rest, n, p.g) else p
  {
    assert OneFewer(m.val) == n;
  }

  /** How the parse goes on after the first value of the flat format. */
  lemma AfterFirstValue<V>(fl: Floats<V>, ids: seq<nat>, s: seq<byte>, m: Head, k: Head, g: Grid<V>, n: nat, v: Parsed<V>)
    requires Shaped(g, |ids|) && m == ReadMap(s) && m.Head? && m.val == n + 1
    requires k == ReadHead(m.rest) && k.Head? && k.major == 0 && k.rest != [] && k.rest[0] / 32 == 7
    requires v == ParseValue(fl, ids, k.rest, 0, k.val, g)
    ensures Parse(fl, ids, s, g) == if v.ok then ParsePairs(fl, ids, v.rest, n, 0, v.g) else v
  {
    assert OneFewer(m.val) == n;
  }

  method DecodeParams<V>(fl: Floats<V>, ids: seq<nat>, s: seq<byte>, g: Grid<V>) returns (r: Parsed<V>)
    requires Shaped(g, |ids|)
    ensures Shaped(r.g, |ids|) && r == Parse(fl, ids, s, g)
  {
    var m := ReadMap(s);
    if m.NoHead? { return Parsed(false, s, g); }
    if m.val == 0 { return Parsed(true, m.rest, g); }
    var k := ReadHead(m.rest);
    if k.NoHead? || k.major != 0 || k.rest == [] { return Parsed(false, m.rest, g); }
    var major, n := k.rest[0] / 32, m.val - 1;
    if major != 5 && major != 7 { return Parsed(false, k.rest, g); }
    if major == 5 {
      r := DecodePart(fl, ids, k.rest, k.val, g);
      AfterFirstPart(fl, ids, s, m, k, g, n, r);
      if !r.ok { return; }
      r := DecodeParts(fl, ids, r.rest, n, r.g);
    } else {
      r := ParseValue(fl, ids, k.rest, 0, k.val, g);
      AfterFirstValue(fl, ids, s, m, k, g, n, r);
      if !r.ok { return; }
      r := DecodePairs(fl, ids, r.rest, n, 0, r.g);
    }
  }
}
