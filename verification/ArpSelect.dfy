/** The arpeggiator's note selection: the step-to-position map of each mode and the in-place pitch sort
    of the latch. */
module ArpSelect {
  import opened Modular

  const UP: nat := 1
  const DOWN: nat := 2
  const UP_DOWN: nat := 3
  const AS_PLAYED: nat := 4

  /** The length of one up-down sweep, endpoints not repeated. */
  function Cycle(span: nat): (c: nat)
    requires span > 0
    ensures c > 0
  {
    if span > 1 then 2 * span - 2 else 1
  }

  /** The position 0 .. span - 1 a step lands on. */
  function Position(mode: nat, step: nat, span: nat): (t: nat)
    requires span > 0
    ensures t < span
  {
    if mode == DOWN then span - 1 - step % span
    else if mode == UP_DOWN then
      var t := step % Cycle(span);
      if t >= span then Cycle(span) - t else t
    else step % span
  }

  lemma NextMod(step: nat, m: nat)
    requires m > 0
    ensures (step + 1) % m == if step % m + 1 == m then 0 else step % m + 1
  {
    var q, r := step / m, step % m;
    assert step == m * q + r;
    if r + 1 == m {
      assert m * (q + 1) == m * q + m;
      ModUnique(step + 1, q + 1, 0, m);
    } else {
      ModUnique(step + 1, q, r + 1, m);
    }
  }

  /** In up-down mode consecutive steps are always exactly one position apart, also where the sweep
      turns and where it wraps. */
  lemma UpDownMovesByOne(step: nat, span: nat)
    requires span > 1
    ensures var a, b := Position(UP_DOWN, step, span), Position(UP_DOWN, step + 1, span); b == a + 1 || b == a - 1
  {
    NextMod(step, Cycle(span));
  }

  /** One sweep visits every position: both ends once, every other position twice. */
  lemma UpDownVisitsAll(span: nat, p: nat, base: nat)
    requires span > 1 && p < span && base % Cycle(span) == 0
    ensures Position(UP_DOWN, base + p, span) == p
    ensures 0 < p < span - 1 ==> Position(UP_DOWN, base + (Cycle(span) - p), span) == p
  {
    var c := Cycle(span);
    var q := base / c;
    assert base == c * q;
    ModUnique(base + p, q, p, c);
    if p > 0 {
      ModUnique(base + (c - p), q, c - p, c);
    }
  }

  /** One sweep up visits the positions in ascending order; so does one in press order. */
  lemma UpVisits(mode: nat, span: nat, p: nat, base: nat)
    requires p < span && base % span == 0 && mode != DOWN && mode != UP_DOWN
    ensures Position(mode, base + p, span) == p
  {
    assert base == span * (base / span);
    ModUnique(base + p, base / span, p, span);
  }

  /** One sweep down visits them in descending order. */
  lemma DownVisits(span: nat, p: nat, base: nat)
    requires p < span && base % span == 0
    ensures Position(DOWN, base + p, span) == span - 1 - p
  {
    assert base == span * (base / span);
    ModUnique(base + p, base / span, p, span);
  }

  // ---------------- the pitch sort ----------------

  /** Every index below the length, once. */
  ghost predicate Permutation(order: seq<nat>)
  {
    && (forall i :: 0 <= i < |order| ==> order[i] < |order|)
    && (forall i, j :: 0 <= i < j < |order| ==> order[i] != order[j])
  }

  lemma SwapPermutes(order: seq<nat>, i: nat, j: nat)
    requires Permutation(order) && i < j < |order|
    ensures Permutation(order[i := order[j]][j := order[i]])
  {
  }

  /** The first `i` entries are in pitch order and none of the others is lower than they are. */
  ghost predicate SortedTo(order: seq<nat>, latch: seq<nat>, i: nat)
    requires |order| == |latch| && Permutation(order) && i <= |order|
  {
    forall a, b :: 0 <= a < i && a < b < |order| ==> latch[order[a]] <= latch[order[b]]
  }

  /** Put the lowest of the remaining notes at `i`. */
  method SelectLowest(order: array<nat>, latch: seq<nat>, i: nat)
    requires order.Length == |latch| && i < |latch| && Permutation(order[..]) && SortedTo(order[..], latch, i)
    modifies order
    ensures Permutation(order[..]) && SortedTo(order[..], latch, i + 1)
  {
    for j := i + 1 to |latch|
      invariant Permutation(order[..]) && SortedTo(order[..], latch, i)
      invariant forall b :: i < b < j ==> latch[order[..][i]] <= latch[order[..][b]]
    {
      if latch[order[j]] < latch[order[i]] {
        SwapPermutes(order[..], i, j);
        ghost var next := order[..][i := order[j]][j := order[i]];
        order[i], order[j] := order[j], order[i];
        assert order[..] == next;
      }
    }
  }

  /** The latch indices: in press order for as-played, else sorted by pitch in place. */
  method Arrange(mode: nat, latch: seq<nat>, order: array<nat>)
    requires order.Length == |latch|
    modifies order
    ensures Permutation(order[..])
    ensures mode == AS_PLAYED ==> forall i :: 0 <= i < |latch| ==> order[i] == i
    ensures mode != AS_PLAYED ==> forall a, b :: 0 <= a < b < |latch| ==> latch[order[..][a]] <= latch[order[..][b]]
  {
    for i := 0 to |latch|
      invariant forall k :: 0 <= k < i ==> order[k] == k
    {
      order[i] := i;
    }
    assert Permutation(order[..]);
    if mode != AS_PLAYED {
      for i := 0 to |latch|
        invariant Permutation(order[..]) && SortedTo(order[..], latch, i)
      {
        SelectLowest(order, latch, i);
      }
    }
  }

  method StepPosition(mode: nat, step: nat, span: nat) returns (t: nat)
    requires span > 0
    ensures t == Position(mode, step, span)
  {
    var s := step % span;
    if mode == DOWN {
      t := span - 1 - s;
    } else if mode == UP_DOWN {
      var cycle := if span > 1 then 2 * span - 2 else 1;
      t := step % cycle;
      if t >= span { t := cycle - t; }
    } else {
      t := s;
    }
  }

  function PositionCount(n: nat, octaves: nat): (span: nat)
    requires n > 0
    ensures span > 0
  {
    Grows(n, octaves + 1);
    n * (octaves + 1)
  }

  datatype Choice = Choice(note: nat, sel: nat)

  /** The note at position `t`: an octave that would leave the range is dropped. */
  function NoteAt(latch: seq<nat>, order: seq<nat>, t: nat): (c: Choice)
    requires latch != [] && |order| == |latch| && Permutation(order) && forall i :: 0 <= i < |latch| ==> latch[i] < 128
    ensures c.sel < |latch| && c.note <= 127 && c.note % 12 == latch[c.sel] % 12 && c.note >= latch[c.sel]
  {
    var sel, oct := order[t % |latch|], t / |latch|;
    var note := latch[sel] + 12 * oct;
    Choice(if note > 127 then latch[sel] else note, sel)
  }

  /** Position `oct * n + s` is the `s`-th note of the order, `oct` octaves up where that is still a note. */
  lemma NoteAtIs(latch: seq<nat>, order: seq<nat>, oct: nat, s: nat)
    requires |order| == |latch| && Permutation(order) && s < |latch| && forall i :: 0 <= i < |latch| ==> latch[i] < 128
    ensures var c := NoteAt(latch, order, oct * |latch| + s);
            && c.sel == order[s]
            && c.note == if latch[order[s]] + 12 * oct > 127 then latch[order[s]] else latch[order[s]] + 12 * oct
  {
    ModUnique(oct * |latch| + s, oct, s, |latch|);
  }

  /** A sweep up plays the order note by note, octave by octave. */
  lemma SweepUp(mode: nat, latch: seq<nat>, order: seq<nat>, octaves: nat, base: nat, oct: nat, s: nat)
    requires |order| == |latch| && Permutation(order) && s < |latch| && forall i :: 0 <= i < |latch| ==> latch[i] < 128
    requires oct <= octaves && base % PositionCount(|latch|, octaves) == 0 && mode != DOWN && mode != UP_DOWN
    ensures NoteAt(latch, order, Position(mode, base + (oct * |latch| + s), PositionCount(|latch|, octaves))).sel == order[s]
    ensures var note := latch[order[s]] + 12 * oct;
            NoteAt(latch, order, Position(mode, base + (oct * |latch| + s), PositionCount(|latch|, octaves))).note
            == if note > 127 then latch[order[s]] else note
  {
    RowFits(oct, s, |latch|, octaves + 1);
    UpVisits(mode, PositionCount(|latch|, octaves), oct * |latch| + s, base);
    NoteAtIs(latch, order, oct, s);
  }

  /** A sweep down plays the same notes from the top octave's last to the first. */
  lemma SweepDown(latch: seq<nat>, order: seq<nat>, octaves: nat, base: nat, oct: nat, s: nat)
    requires |order| == |latch| && Permutation(order) && s < |latch| && forall i :: 0 <= i < |latch| ==> latch[i] < 128
    requires oct <= octaves && base % PositionCount(|latch|, octaves) == 0
    ensures oct * |latch| + s < PositionCount(|latch|, octaves)
    ensures var span := PositionCount(|latch|, octaves);
            NoteAt(latch, order, Position(DOWN, base + (span - 1 - (oct * |latch| + s)), span)).sel == order[s]
    ensures var span, note := PositionCount(|latch|, octaves), latch[order[s]] + 12 * oct;
            NoteAt(latch, order, Position(DOWN, base + (span - 1 - (oct * |latch| + s)), span)).note
            == if note > 127 then latch[order[s]] else note
  {
    var span := PositionCount(|latch|, octaves);
    RowFits(oct, s, |latch|, octaves + 1);
    DownVisits(span, span - 1 - (oct * |latch| + s), base);
    NoteAtIs(latch, order, oct, s);
  }

  method Select(mode: nat, step: nat, latch: seq<nat>, octaves: nat, order: array<nat>) returns (c: Choice)
    requires latch != [] && order.Length == |latch| && forall i :: 0 <= i < |latch| ==> latch[i] < 128
    modifies order
    ensures Permutation(order[..]) && c == NoteAt(latch, order[..], Position(mode, step, PositionCount(|latch|, octaves)))
    ensures mode == AS_PLAYED ==> forall i :: 0 <= i < |latch| ==> order[i] == i
    ensures mode != AS_PLAYED ==> forall a, b :: 0 <= a < b < |latch| ==> latch[order[..][a]] <= latch[order[..][b]]
  {
    var t := StepPosition(mode, step, PositionCount(|latch|, octaves));
    Arrange(mode, latch, order);
    c := NoteAt(latch, order[..], t);
  }
}
