/** Deterministic voice allocation with the arpeggiator off: first free voice, else steal the oldest.
    Proved over every sequence of note-ons, note-offs, panics and reclaimed tails. */
module VoicePool {
  import opened Counting
  import opened Sizes

  /** `note` is -1 once released; `age` is the allocation clock at the note-on. */
  datatype Voice = Voice(active: bool, note: int, age: nat)

  datatype Pool = Pool(voices: seq<Voice>, clock: nat)

  const IDLE: Voice := Voice(false, -1, 0)

  const COLD: Pool := Pool([IDLE, IDLE, IDLE, IDLE, IDLE, IDLE, IDLE, IDLE], 0)

  datatype Op = NoteOn(note: nat) | NoteOff(note: nat) | Reclaim(i: nat) | PanicAll

  // ---------------- the choice ----------------

  function FirstFree(voices: seq<Voice>): (i: nat)
    ensures i <= |voices|
    ensures i < |voices| ==> !voices[i].active
    ensures forall j :: 0 <= j < i ==> voices[j].active
  {
    if voices == [] then 0 else if !voices[0].active then 0 else 1 + FirstFree(voices[1..])
  }

  /** The first index of the smallest age among the first `n` voices. */
  function Oldest(voices: seq<Voice>, n: nat): (i: nat)
    requires 1 <= n <= |voices|
    ensures i < n
    ensures forall j :: 0 <= j < n ==> voices[i].age <= voices[j].age
    ensures forall j :: 0 <= j < i ==> voices[i].age < voices[j].age
  {
    if n == 1 then 0
    else
      var o := Oldest(voices, n - 1);
      if voices[n - 1].age < voices[o].age then n - 1 else o
  }

  function Choice(voices: seq<Voice>): (i: nat)
    requires voices != []
    ensures i < |voices|
  {
    if FirstFree(voices) < |voices| then FirstFree(voices) else Oldest(voices, |voices|)
  }

  // ---------------- the operations ----------------

  function Started(p: Pool, note: nat): Pool
    requires p.voices != []
  {
    Pool(p.voices[Choice(p.voices) := Voice(true, note, p.clock)], p.clock + 1)
  }

  function Released(voices: seq<Voice>, note: nat): (r: seq<Voice>)
    ensures |r| == |voices|
    ensures forall i :: 0 <= i < |voices| ==>
      r[i] == if voices[i].active && voices[i].note == note then voices[i].(note := -1) else voices[i]
  {
    seq(|voices|, i requires 0 <= i < |voices| =>
      if voices[i].active && voices[i].note == note then voices[i].(note := -1) else voices[i])
  }

  function Freed(voices: seq<Voice>): (r: seq<Voice>)
    ensures |r| == |voices|
    ensures forall i :: 0 <= i < |voices| ==> r[i] == voices[i].(active := false, note := -1)
  {
    seq(|voices|, i requires 0 <= i < |voices| => voices[i].(active := false, note := -1))
  }

  function Next(p: Pool, op: Op): Pool
    requires p.voices != []
  {
    match op
    case NoteOn(note) => Started(p, note)
    case NoteOff(note) => p.(voices := Released(p.voices, note))
    case Reclaim(i) =>
      if i < |p.voices| && p.voices[i].active && p.voices[i].note < 0
      then p.(voices := p.voices[i := p.voices[i].(active := false)]) else p
    case PanicAll => p.(voices := Freed(p.voices))
  }

  function After(ops: seq<Op>): (p: Pool)
    ensures |p.voices| == NVOICES
  {
    if ops == [] then COLD else Next(After(ops[..|ops| - 1]), ops[|ops| - 1])
  }

  // ---------------- ages ----------------

  /** Active voices have distinct ages below the clock. */
  ghost predicate Aged(p: Pool)
  {
    && |p.voices| == NVOICES
    && (forall i :: 0 <= i < |p.voices| && p.voices[i].active ==> p.voices[i].age < p.clock)
    && (forall i, j :: 0 <= i < j < |p.voices| && p.voices[i].active && p.voices[j].active ==>
          p.voices[i].age != p.voices[j].age)
  }

  lemma StartedAged(p: Pool, note: nat)
    requires Aged(p)
    ensures Aged(Started(p, note))
  {
    var i, q := Choice(p.voices), Started(p, note);
    assert forall j :: 0 <= j < NVOICES && j != i ==> q.voices[j] == p.voices[j];
  }

  lemma OtherAged(p: Pool, op: Op)
    requires Aged(p) && !op.NoteOn?
    ensures Aged(Next(p, op))
  {
  }

  lemma {:induction false} AlwaysAged(ops: seq<Op>)
    ensures Aged(After(ops))
  {
    if ops != [] {
      var p, op := After(ops[..|ops| - 1]), ops[|ops| - 1];
      AlwaysAged(ops[..|ops| - 1]);
      if op.NoteOn? {
        StartedAged(p, op.note);
      } else {
        OtherAged(p, op);
      }
    }
  }

  function NoteOns(ops: seq<Op>): nat
  {
    if ops == [] then 0 else NoteOns(ops[..|ops| - 1]) + if ops[|ops| - 1].NoteOn? then 1 else 0
  }

  /** One past the operation that last put a note on voice `i`; 0 if there was none. */
  function Owner(ops: seq<Op>, i: nat): (t: nat)
    ensures t <= |ops| && (t > 0 ==> ops[t - 1].NoteOn?)
  {
    if ops == [] then 0
    else
      var p := After(ops[..|ops| - 1]);
      if ops[|ops| - 1].NoteOn? && Choice(p.voices) == i then |ops| else Owner(ops[..|ops| - 1], i)
  }

  /** An active voice carries the count of note-ons before its own. */
  ghost predicate Born(ops: seq<Op>, i: nat)
    requires i < NVOICES
  {
    var p, t := After(ops), Owner(ops, i);
    p.voices[i].active ==> t > 0 && ops[t - 1].NoteOn? && p.voices[i].age == NoteOns(ops[..t - 1])
  }

  lemma {:induction false} AlwaysBorn(ops: seq<Op>, i: nat)
    requires i < NVOICES
    ensures Born(ops, i) && After(ops).clock == NoteOns(ops)
  {
    if ops != [] {
      var prev := ops[..|ops| - 1];
      AlwaysBorn(prev, i);
      var t := Owner(prev, i);
      if t > 0 { assert ops[..t - 1] == prev[..t - 1]; }
    }
  }

  // ---------------- which note a voice sounds ----------------

  ghost predicate Sounding(v: Voice)
  {
    v.active && v.note >= 0
  }

  predicate Ends(op: Op, note: nat)
  {
    op == NoteOff(note) || op.PanicAll?
  }

  /** None of the operations from `t` on ends the note. */
  ghost predicate KeptFrom(ops: seq<Op>, t: nat, note: nat)
  {
    forall j :: t <= j < |ops| ==> !Ends(ops[j], note)
  }

  /** The note-on before `t` has been followed by no note-off of its note and no panic. */
  ghost predicate HeldFrom(ops: seq<Op>, t: nat)
    requires t <= |ops| && (t > 0 ==> ops[t - 1].NoteOn?)
  {
    t > 0 && KeptFrom(ops, t, ops[t - 1].note)
  }

  /** So it is for the note-on that last took the voice. */
  ghost predicate HeldSince(ops: seq<Op>, i: nat)
  {
    HeldFrom(ops, Owner(ops, i))
  }

  lemma KeptNext(prev: seq<Op>, op: Op, t: nat, note: nat)
    requires t <= |prev|
    ensures KeptFrom(prev + [op], t, note) <==> KeptFrom(prev, t, note) && !Ends(op, note)
  {
    var ops := prev + [op];
    if KeptFrom(ops, t, note) {
      assert ops[|prev|] == op;
      forall j | t <= j < |prev| ensures !Ends(prev[j], note) {
        assert ops[j] == prev[j];
      }
    }
  }

  lemma HeldNext(prev: seq<Op>, op: Op, ops: seq<Op>, t: nat)
    requires ops == prev + [op] && t <= |prev| && (t > 0 ==> prev[t - 1].NoteOn?)
    ensures HeldFrom(ops, t) <==> HeldFrom(prev, t) && !Ends(op, prev[t - 1].note)
  {
    if t > 0 {
      KeptNext(prev, op, t, prev[t - 1].note);
    }
  }

  lemma OwnerNext(prev: seq<Op>, op: Op, ops: seq<Op>, i: nat)
    requires ops == prev + [op]
    ensures Owner(ops, i) == if op.NoteOn? && Choice(After(prev).voices) == i then |ops| else Owner(prev, i)
  {
    assert ops[..|ops| - 1] == prev;
  }

  /** One operation: a note-on sounds its note on the voice it takes, and any other voice goes on sounding
      unless the operation ends its note. */
  lemma VoiceStep(p: Pool, op: Op, i: nat)
    requires i < |p.voices|
    ensures var v, w := p.voices[i], Next(p, op).voices[i];
            if op.NoteOn? && Choice(p.voices) == i then Sounding(w) && w.note == op.note
            else (Sounding(w) <==> Sounding(v) && !Ends(op, v.note)) && (Sounding(w) ==> w.note == v.note)
  {
  }

  /** The voice sounds exactly while the note-on before `t` is held, and sounds its note. */
  ghost predicate SoundsHeld(ops: seq<Op>, t: nat, v: Voice)
    requires t <= |ops| && (t > 0 ==> ops[t - 1].NoteOn?)
  {
    && (Sounding(v) <==> HeldFrom(ops, t))
    && (Sounding(v) ==> v.note == ops[t - 1].note)
  }

  lemma SoundsNext(prev: seq<Op>, op: Op, ops: seq<Op>, t: nat, taken: bool, v: Voice, w: Voice)
    requires ops == prev + [op] && t <= |prev| && (t > 0 ==> prev[t - 1].NoteOn?) && SoundsHeld(prev, t, v)
    requires if taken then op.NoteOn? && Sounding(w) && w.note == op.note
             else (Sounding(w) <==> Sounding(v) && !Ends(op, v.note)) && (Sounding(w) ==> w.note == v.note)
    ensures SoundsHeld(ops, if taken then |ops| else t, w)
  {
    HeldNext(prev, op, ops, t);
  }

  /** A voice sounds exactly while the note-on that last took it is neither released nor cut off, and what
      it sounds is that note-on's note. */
  lemma {:induction false} SoundsItsNote(ops: seq<Op>, i: nat)
    requires i < NVOICES
    ensures SoundsHeld(ops, Owner(ops, i), After(ops).voices[i])
  {
    if ops != [] {
      var prev, op := ops[..|ops| - 1], ops[|ops| - 1];
      var p, taken := After(prev), op.NoteOn? && Choice(After(prev).voices) == i;
      SoundsItsNote(prev, i);
      VoiceStep(p, op, i);
      assert prev + [op] == ops;
      OwnerNext(prev, op, ops, i);
      SoundsNext(prev, op, ops, Owner(prev, i), taken, p.voices[i], Next(p, op).voices[i]);
    }
  }

  // ---------------- which voices are taken ----------------

  /** No panic has come since `t`, and no reclaim of voice `i` that found its note released. */
  ghost predicate TakenSince(ops: seq<Op>, t: nat, i: nat)
    requires t <= |ops| && (t > 0 ==> ops[t - 1].NoteOn?)
  {
    && t > 0
    && (forall j :: t <= j < |ops| ==> !ops[j].PanicAll?)
    && (forall j :: t <= j < |ops| && ops[j] == Reclaim(i) ==> HeldFrom(ops[..j], t))
  }

  lemma TakenNext(prev: seq<Op>, op: Op, ops: seq<Op>, t: nat, i: nat)
    requires ops == prev + [op] && t <= |prev| && (t > 0 ==> prev[t - 1].NoteOn?)
    ensures TakenSince(ops, t, i) <==>
      TakenSince(prev, t, i) && !op.PanicAll? && (op == Reclaim(i) ==> HeldFrom(prev, t))
  {
    assert ops[..|prev|] == prev && ops[|prev|] == op;
    assert forall j :: 0 <= j < |prev| ==> ops[j] == prev[j] && ops[..j] == prev[..j];
    if TakenSince(ops, t, i) {
      forall j | t <= j < |prev| ensures !prev[j].PanicAll? { assert ops[j] == prev[j]; }
    }
  }

  /** One operation on a voice that no note-on takes. */
  lemma ActiveStep(p: Pool, op: Op, i: nat)
    requires i < |p.voices|
    ensures var v, w := p.voices[i], Next(p, op).voices[i];
            if op.NoteOn? && Choice(p.voices) == i then w.active
            else w.active <==> v.active && !op.PanicAll? && (op == Reclaim(i) ==> Sounding(v))
  {
  }

  /** A voice is active, and so not free for the next note-on, exactly from the note-on that took it until
      a panic, or until it is reclaimed after its release. */
  lemma {:induction false} ActiveExactly(ops: seq<Op>, i: nat)
    requires i < NVOICES
    ensures After(ops).voices[i].active <==> TakenSince(ops, Owner(ops, i), i)
  {
    if ops != [] {
      var prev, op := ops[..|ops| - 1], ops[|ops| - 1];
      ActiveExactly(prev, i);
      SoundsItsNote(prev, i);
      ActiveStep(After(prev), op, i);
      assert prev + [op] == ops;
      OwnerNext(prev, op, ops, i);
      TakenNext(prev, op, ops, Owner(prev, i), i);
    }
  }

  /** A note-off releases every voice whose note-on it answers, and touches no other: the released ones
      stay active for their tail. */
  lemma NoteOffReleases(ops: seq<Op>, note: nat, i: nat)
    requires i < NVOICES
    ensures var v, w := After(ops).voices[i], Next(After(ops), NoteOff(note)).voices[i];
            if HeldSince(ops, i) && ops[Owner(ops, i) - 1] == NoteOn(note) then w == v.(note := -1) && w.active else w == v
  {
    SoundsItsNote(ops, i);
    if After(ops).voices[i].active && After(ops).voices[i].note == note {
      assert Sounding(After(ops).voices[i]);
    }
  }

  // ---------------- stealing ----------------

  /** The voice that the next note-on takes is free, or every voice is active and it is the oldest. */
  lemma StealsOldest(ops: seq<Op>)
    ensures var p := After(ops); var i := Choice(p.voices);
            p.voices[i].active ==>
              && (forall j :: 0 <= j < NVOICES ==> p.voices[j].active)
              && (forall j :: 0 <= j < NVOICES && j != i ==> p.voices[i].age < p.voices[j].age)
  {
    AlwaysAged(ops);
  }

  ghost function Ages(voices: seq<Voice>, n: nat): (s: set<nat>)
    requires n <= |voices|
    ensures forall x :: x in s <==> exists j :: 0 <= j < n && voices[j].age == x
  {
    if n == 0 then {} else Ages(voices, n - 1) + {voices[n - 1].age}
  }

  lemma {:induction false} AgesCount(voices: seq<Voice>, n: nat)
    requires n <= |voices| && forall i, j :: 0 <= i < j < n ==> voices[i].age != voices[j].age
    ensures |Ages(voices, n)| == n
  {
    if n > 0 {
      AgesCount(voices, n - 1);
    }
  }

  lemma AgesWithin(voices: seq<Voice>, n: nat, lo: nat, hi: nat)
    requires n <= |voices| && forall j :: 0 <= j < n ==> lo <= voices[j].age < hi
    ensures |Ages(voices, n)| <= if lo < hi then hi - lo else 0
  {
    SubsetSize(Ages(voices, n), Naturals(lo, hi));
  }

  lemma OldestIsFarBehind(p: Pool, i: nat)
    requires Aged(p) && i < NVOICES && (forall j :: 0 <= j < NVOICES ==> p.voices[j].active)
    requires forall j :: 0 <= j < NVOICES ==> p.voices[i].age <= p.voices[j].age
    ensures p.clock >= p.voices[i].age + NVOICES
  {
    AgesCount(p.voices, NVOICES);
    AgesWithin(p.voices, NVOICES, p.voices[i].age, p.clock);
  }

  /** A sounding note is never stolen before the eighth later note-on: when the next note-on takes an
      active voice, at least seven others came since the one that started it. */
  lemma NeverStolenEarly(ops: seq<Op>)
    ensures var p := After(ops); var i := Choice(p.voices); var t := Owner(ops, i);
            p.voices[i].active ==> 0 < t <= |ops| && ops[t - 1].NoteOn? && NoteOns(ops) - NoteOns(ops[..t]) >= NVOICES - 1
  {
    var p := After(ops);
    var i := Choice(p.voices);
    if p.voices[i].active {
      AlwaysAged(ops);
      StealsOldest(ops);
      AlwaysBorn(ops, i);
      OldestIsFarBehind(p, i);
      NoteOnsAt(ops, Owner(ops, i));
    }
  }

  lemma NoteOnsAt(ops: seq<Op>, t: nat)
    requires 0 < t <= |ops| && ops[t - 1].NoteOn?
    ensures NoteOns(ops[..t]) == NoteOns(ops[..t - 1]) + 1
  {
    assert ops[..t][..t - 1] == ops[..t - 1];
  }

  // ---------------- the pool in place ----------------

  /** The policy over plain arrays. */
  method Pick(active: array<bool>, ages: array<nat>, ghost voices: seq<Voice>) returns (i: nat)
    requires active.Length == ages.Length == |voices| > 0
    requires forall j :: 0 <= j < |voices| ==> active[j] == voices[j].active && ages[j] == voices[j].age
    ensures i == Choice(voices)
  {
    i := 0;
    while i < active.Length
      invariant i <= active.Length && FirstFree(voices) >= i
    {
      if !active[i] { return; }
      i := i + 1;
    }
    var oldest := 0;
    for k := 1 to active.Length
      invariant oldest == Oldest(voices, k)
    {
      if ages[k] < ages[oldest] { oldest := k; }
    }
    i := oldest;
  }

  class Part {
    const voices: array<Voice>
    var clock: nat

    ghost predicate Valid()
      reads this
    {
      voices.Length == NVOICES
    }

    ghost function State(): Pool
      reads this, voices
    {
      Pool(voices[..], clock)
    }

    constructor ()
      ensures Valid() && State() == COLD && fresh(voices)
    {
      voices := new Voice[NVOICES](_ => IDLE);
      clock := 0;
      new;
      assert voices[..] == COLD.voices;
    }

    method Start(note: nat)
      requires Valid()
      modifies this, voices
      ensures Valid() && State() == Started(old(State()), note)
    {
      var active, ages := new bool[NVOICES], new nat[NVOICES];
      for k := 0 to NVOICES
        invariant forall j :: 0 <= j < k ==> active[j] == voices[j].active && ages[j] == voices[j].age
        invariant voices[..] == old(voices[..]) && clock == old(clock)
      {
        active[k], ages[k] := voices[k].active, voices[k].age;
      }
      ghost var pool := voices[..];
      var i := Pick(active, ages, pool);
      voices[i] := Voice(true, note, clock);
      assert voices[..] == pool[i := Voice(true, note, clock)];
      clock := clock + 1;
    }

    method Release(note: nat)
      requires Valid()
      modifies voices
      ensures Valid() && State() == Pool(Released(old(voices[..]), note), clock)
    {
      ghost var r := Released(voices[..], note);
      for k := 0 to NVOICES
        invariant forall j :: 0 <= j < k ==> voices[j] == r[j]
        invariant forall j :: k <= j < NVOICES ==> voices[j] == old(voices[j])
      {
        if voices[k].active && voices[k].note == note { voices[k] := voices[k].(note := -1); }
      }
      assert voices[..] == r;
    }
  }
}
