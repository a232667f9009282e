/** The params blob: a CBOR map of part index to a map of param id to value, for every part, and the
    older flat map of param id to value, which loads into part 0.

    Floats are an uninterpreted codec: each value has one of the three float encodings and is read
    back from it. */
module ParamsBlob {
  import opened Octets
  import opened Cbor
  import opened Sizes

  const U64: nat := 0x1_0000_0000_0000_0000

  /** The float encodings: additional information 25, 26 or 27 and the raw argument bits. */
  datatype Floats<!V> = Floats(ai: V -> nat, bits: V -> nat, value: (nat, nat) -> V)

  ghost predicate Faithful<V(!new)>(fl: Floats<V>)
  {
    forall v: V :: 25 <= fl.ai(v) <= 27 && fl.bits(v) < Pow256(ArgumentBytes(fl.ai(v))) && fl.value(fl.ai(v), fl.bits(v)) == v
  }

  function PutFloat<V>(fl: Floats<V>, v: V): seq<byte>
  {
    if 25 <= fl.ai(v) <= 27 then HeadWith(7, fl.ai(v), fl.bits(v)) else []
  }

  // ---------------- the grid ----------------

  /** `v` and `present` by part, then by position in the param table. */
  datatype Grid<V> = Grid(v: seq<seq<V>>, present: seq<seq<bool>>)

  ghost predicate Shaped<V>(g: Grid<V>, n: nat)
  {
    && |g.v| == NPARTS && |g.present| == NPARTS
    && (forall p :: 0 <= p < NPARTS ==> |g.v[p]| == n)
    && (forall p :: 0 <= p < NPARTS ==> |g.present[p]| == n)
  }

  /** The table position of an id, or the table's length. */
  function Column(ids: seq<nat>, id: nat): (j: nat)
    ensures j <= |ids| && (j < |ids| ==> ids[j] == id) && (j == |ids| ==> id !in ids)
  {
    if ids == [] then 0 else if ids[0] == id then 0 else 1 + Column(ids[1..], id)
  }

  /** Store one value; an unknown id is ignored. */
  function GridSet<V>(ids: seq<nat>, g: Grid<V>, part: nat, id: nat, val: V): (g': Grid<V>)
    requires Shaped(g, |ids|) && part < NPARTS
    ensures Shaped(g', |ids|)
  {
    var j := Column(ids, id);
    if j == |ids| then g
    else Grid(g.v[part := g.v[part][j := val]], g.present[part := g.present[part][j := true]])
  }

  // ---------------- the parser ----------------

  /** Outcome, remaining bytes and the grid as filled so far (also on failure). */
  datatype Parsed<V> = Parsed(ok: bool, rest: seq<byte>, g: Grid<V>)

  function ParsePair<V>(fl: Floats<V>, ids: seq<nat>, s: seq<byte>, part: nat, g: Grid<V>): (r: Parsed<V>)
    requires Shaped(g, |ids|)
    ensures Shaped(r.g, |ids|)
  {
    var k := ReadHead(s);
    if k.NoHead? || k.major != 0 then Parsed(false, s, g) else ParseValue(fl, ids, k.rest, part, k.val, g)
  }

  function ParseValue<V>(fl: Floats<V>, ids: seq<nat>, s: seq<byte>, part: nat, id: nat, g: Grid<V>): (r: Parsed<V>)
    requires Shaped(g, |ids|)
    ensures Shaped(r.g, |ids|)
  {
    var f := ReadHead(s);
    if f.NoHead? || f.major != 7 || !(25 <= f.ai <= 27) then Parsed(false, s, g)
    else Parsed(true, f.rest, if part < NPARTS then GridSet(ids, g, part, id, fl.value(f.ai, f.val)) else g)
  }

  /** How many entries are left after one. */
  function OneFewer(n: nat): (m: nat)
    requires n > 0
    ensures m == n - 1
  {
    n - 1
  }

  /** `n` pairs of a part's map; the pairs of a part out of range are consumed and discarded. */
  function ParsePairs<V>(fl: Floats<V>, ids: seq<nat>, s: seq<byte>, n: nat, part: nat, g: Grid<V>): (r: Parsed<V>)
    requires Shaped(g, |ids|)
    ensures Shaped(r.g, |ids|)
    decreases n
  {
    if n == 0 then Parsed(true, s, g)
    else
      var r := ParsePair(fl, ids, s, part, g);
      if !r.ok then r else ParsePairs(fl, ids, r.rest, OneFewer(n), part, r.g)
  }

  function ParsePart<V>(fl: Floats<V>, ids: seq<nat>, s: seq<byte>, part: nat, g: Grid<V>): (r: Parsed<V>)
    requires Shaped(g, |ids|)
    ensures Shaped(r.g, |ids|)
  {
    var m := ReadMap(s);
    if m.NoHead? then Parsed(false, s, g) else ParsePairs(fl, ids, m.rest, m.val, part, g)
  }

  /** `n` parts of the per-part map. */
  function ParseParts<V>(fl: Floats<V>, ids: seq<nat>, s: seq<byte>, n: nat, g: Grid<V>): (r: Parsed<V>)
    requires Shaped(g, |ids|)
    ensures Shaped(r.g, |ids|)
    decreases n
  {
    if n == 0 then Parsed(true, s, g)
    else
      var k := ReadHead(s);
      if k.NoHead? || k.major != 0 then Parsed(false, s, g)
      else
        var r := ParsePart(fl, ids, k.rest, k.val, g);
        if !r.ok then r else ParseParts(fl, ids, r.rest, OneFewer(n), r.g)
  }

  /** The first value's type tells the two formats apart. */
  function Parse<V>(fl: Floats<V>, ids: seq<nat>, s: seq<byte>, g: Grid<V>): (r: Parsed<V>)
    requires Shaped(g, |ids|)
    ensures Shaped(r.g, |ids|)
  {
    var m := ReadMap(s);
    if m.NoHead? then Parsed(false, s, g)
    else if m.val == 0 then Parsed(true, m.rest, g)
    else
      var k := ReadHead(m.rest);
      if k.NoHead? || k.major != 0 || k.rest == [] then Parsed(false, m.rest, g)
      else if k.rest[0] / 32 == 5 then
        var r := ParsePart(fl, ids, k.rest, k.val, g);
        if !r.ok then r else ParseParts(fl, ids, r.rest, OneFewer(m.val), r.g)
      else if k.rest[0] / 32 == 7 then
        var r := ParseValue(fl, ids, k.rest, 0, k.val, g);
        if !r.ok then r else ParsePairs(fl, ids, r.rest, OneFewer(m.val), 0, r.g)
      else Parsed(false, k.rest, g)
  }

  // ---------------- documents ----------------

  datatype Pair<V> = Pair(id: nat, val: V)

  datatype PartMap<V> = PartMap(part: nat, pairs: seq<Pair<V>>)

  function PutPair<V>(fl: Floats<V>, p: Pair<V>): seq<byte>
  {
    PutHead(0, p.id) + PutFloat(fl, p.val)
  }

  function PutPairs<V>(fl: Floats<V>, ps: seq<Pair<V>>): seq<byte>
  {
    if ps == [] then [] else PutPair(fl, ps[0]) + PutPairs(fl, ps[1..])
  }

  function PutPart<V>(fl: Floats<V>, d: PartMap<V>): seq<byte>
  {
    PutHead(0, d.part) + (PutHead(5, |d.pairs|) + PutPairs(fl, d.pairs))
  }

  function PutParts<V>(fl: Floats<V>, doc: seq<PartMap<V>>): seq<byte>
  {
    if doc == [] then [] else PutPart(fl, doc[0]) + PutParts(fl, doc[1..])
  }

  function PutDoc<V>(fl: Floats<V>, doc: seq<PartMap<V>>): seq<byte>
  {
    PutHead(5, |doc|) + PutParts(fl, doc)
  }

  /** The older flat map. */
  function PutFlat<V>(fl: Floats<V>, ps: seq<Pair<V>>): seq<byte>
  {
    PutHead(5, |ps|) + PutPairs(fl, ps)
  }

  ghost predicate PairsFit<V>(ps: seq<Pair<V>>)
  {
    |ps| < U64 && forall i :: 0 <= i < |ps| ==> ps[i].id < U64
  }

  ghost predicate DocFits<V>(doc: seq<PartMap<V>>)
  {
    |doc| < U64 && forall i :: 0 <= i < |doc| ==> doc[i].part < U64 && PairsFit(doc[i].pairs)
  }

  // ---------------- what a document means ----------------

  function ApplyPairs<V>(ids: seq<nat>, ps: seq<Pair<V>>, part: nat, g: Grid<V>): (g': Grid<V>)
    requires Shaped(g, |ids|)
    ensures Shaped(g', |ids|)
  {
    if ps == [] then g
    else ApplyPairs(ids, ps[1..], part, if part < NPARTS then GridSet(ids, g, part, ps[0].id, ps[0].val) else g)
  }

  function ApplyDoc<V>(ids: seq<nat>, doc: seq<PartMap<V>>, g: Grid<V>): (g': Grid<V>)
    requires Shaped(g, |ids|)
    ensures Shaped(g', |ids|)
  {
    if doc == [] then g else ApplyDoc(ids, doc[1..], ApplyPairs(ids, doc[0].pairs, doc[0].part, g))
  }
}
