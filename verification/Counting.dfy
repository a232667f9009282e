/** Cardinalities of finite sets. */
module Counting {

  lemma {:induction false} SubsetSize<T>(s: set<T>, t: set<T>)
    requires s <= t
    ensures |s| <= |t|
  {
    if s != {} {
      var x :| x in s;
      SubsetSize(s - {x}, t - {x});
    }
  }

  /** The naturals from `lo` up to `hi`. */
  ghost function Naturals(lo: nat, hi: nat): (s: set<nat>)
    ensures forall x :: x in s <==> lo <= x < hi
    ensures |s| == if lo < hi then hi - lo else 0
    decreases hi
  {
    if lo >= hi then {} else Naturals(lo, hi - 1) + {hi - 1}
  }

  /** No element occurs twice. */
  ghost predicate NoRepeats<T>(s: seq<T>)
  {
    forall i, j :: 0 <= i < j < |s| ==> s[i] != s[j]
  }

  ghost function Elements<T>(s: seq<T>): set<T>
  {
    set y | y in s
  }

  lemma {:induction false} ElementsCount<T>(s: seq<T>)
    requires NoRepeats(s)
    ensures |Elements(s)| == |s|
  {
    if s != [] {
      var p, last := s[..|s| - 1], s[|s| - 1];
      ElementsCount(p);
      assert s == p + [last];
      assert Elements(s) == Elements(p) + {last};
    } else {
      assert Elements(s) == {};
    }
  }

  lemma DisjointSize<T>(a: set<T>, b: set<T>, all: set<T>)
    requires a !! b && all == a + b
    ensures |all| == |a| + |b|
  {
  }
}
