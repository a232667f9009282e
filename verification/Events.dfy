/** Timestamped device events and the two halves of an event queue around a stream position.
    A timestamp is a sample index; 0 means "as soon as possible". */
module Events {

  datatype Kind = NoteOn | NoteOff | ParamSet | Ramp | AllOff | Transport | Mod

  datatype Event = Event(ts: nat, kind: Kind, a: nat, v: real, end: nat, ppq: real, channel: nat, voice: nat)

  /** One application: `ev` took effect when the render cursor stood at `pos`. */
  datatype Applied = Applied(pos: nat, ev: Event)

  /** The events of `q` stamped before `limit`, in queue order. */
  function Before(q: seq<Event>, limit: nat): seq<Event>
  {
    if q == [] then []
    else
      var last := q[|q| - 1];
      if last.ts < limit then Before(q[..|q| - 1], limit) + [last] else Before(q[..|q| - 1], limit)
  }

  /** The events of `q` stamped at `limit` or after, in queue order. */
  function From(q: seq<Event>, limit: nat): seq<Event>
  {
    if q == [] then []
    else
      var last := q[|q| - 1];
      if last.ts < limit then From(q[..|q| - 1], limit) else From(q[..|q| - 1], limit) + [last]
  }

  function Stamp(q: seq<Event>, pos: nat): (r: seq<Applied>)
    ensures |r| == |q|
  {
    seq(|q|, i requires 0 <= i < |q| => Applied(pos, q[i]))
  }

  /** Every event of `q` is stamped at `pos` or later. */
  ghost predicate NoneBefore(q: seq<Event>, pos: nat)
  {
    forall i :: 0 <= i < |q| ==> q[i].ts >= pos
  }

  lemma {:induction false} SplitAppend(q: seq<Event>, r: seq<Event>, limit: nat)
    ensures Before(q + r, limit) == Before(q, limit) + Before(r, limit)
    ensures From(q + r, limit) == From(q, limit) + From(r, limit)
  {
    if r == [] {
      assert q + r == q;
    } else {
      var s := q + r;
      assert s[..|s| - 1] == q + r[..|r| - 1];
      SplitAppend(q, r[..|r| - 1], limit);
    }
  }

  lemma {:induction false} FromAll(q: seq<Event>, limit: nat)
    requires NoneBefore(q, limit)
    ensures From(q, limit) == q && Before(q, limit) == []
  {
    if q != [] {
      FromAll(q[..|q| - 1], limit);
      assert q == q[..|q| - 1] + [q[|q| - 1]];
    }
  }

  lemma {:induction false} FromBound(q: seq<Event>, limit: nat)
    ensures NoneBefore(From(q, limit), limit)
    ensures forall i :: 0 <= i < |Before(q, limit)| ==> Before(q, limit)[i].ts < limit
    ensures multiset(q) == multiset(Before(q, limit)) + multiset(From(q, limit))
  {
    if q != [] {
      FromBound(q[..|q| - 1], limit);
      assert q == q[..|q| - 1] + [q[|q| - 1]];
    }
  }

  /** Cutting twice is cutting at the later of the two positions. */
  lemma {:induction false} Nested(q: seq<Event>, lo: nat, hi: nat)
    requires lo <= hi
    ensures From(From(q, lo), hi) == From(q, hi)
    ensures Before(Before(q, hi), lo) == Before(q, lo)
    ensures From(Before(q, hi), lo) == Before(From(q, lo), hi)
  {
    if q != [] {
      var p, last := q[..|q| - 1], q[|q| - 1];
      Nested(p, lo, hi);
      if last.ts < lo {
        assert From(q, lo) == From(p, lo);
        assert Before(q, hi)[..|Before(q, hi)| - 1] == Before(p, hi);
      } else if last.ts < hi {
        assert From(q, lo)[..|From(q, lo)| - 1] == From(p, lo);
        assert Before(q, hi)[..|Before(q, hi)| - 1] == Before(p, hi);
      } else {
        assert Before(q, hi) == Before(p, hi);
        assert From(q, lo)[..|From(q, lo)| - 1] == From(p, lo);
      }
    }
  }
}
