/** Archive retention: keep only the newest refs under a prefix, in two passes over the store and with
    a bounded buffer of the largest names seen. */
module Retention {
  import opened Counting

  const KEEP: nat := 32

  /** A ref name as its bytes. */
  type Name = seq<nat>

  // ---------------- the order of names ----------------

  predicate Less(a: Name, b: Name)
  {
    if b == [] then false
    else if a == [] then true
    else if a[0] != b[0] then a[0] < b[0]
    else Less(a[1..], b[1..])
  }

  lemma {:induction false} LessAsymmetric(a: Name, b: Name)
    ensures !(Less(a, b) && Less(b, a))
  {
    if a != [] && b != [] && a[0] == b[0] {
      LessAsymmetric(a[1..], b[1..]);
    }
  }

  lemma {:induction false} LessTotal(a: Name, b: Name)
    ensures a == b || Less(a, b) || Less(b, a)
  {
    if a != [] && b != [] && a[0] == b[0] {
      LessTotal(a[1..], b[1..]);
      assert a == [a[0]] + a[1..] && b == [b[0]] + b[1..];
    }
  }

  lemma {:induction false} LessTransitive(a: Name, b: Name, c: Name)
    requires Less(a, b) && Less(b, c)
    ensures Less(a, c)
  {
    if a != [] && a[0] == b[0] == c[0] {
      LessTransitive(a[1..], b[1..], c[1..]);
    }
  }

  predicate HasPrefix(n: Name, prefix: Name)
  {
    |prefix| <= |n| && n[..|prefix|] == prefix
  }

  function Matching(refs: seq<Name>, prefix: Name): seq<Name>
  {
    if refs == [] then []
    else
      var m, last := Matching(refs[..|refs| - 1], prefix), refs[|refs| - 1];
      if HasPrefix(last, prefix) then m + [last] else m
  }

  // ---------------- the bounded buffer ----------------

  ghost predicate Ascending(b: seq<Name>)
  {
    forall i, j :: 0 <= i < j < |b| ==> Less(b[i], b[j])
  }

  /** Insert into an ascending buffer. */
  function Insert(b: seq<Name>, x: Name): (r: seq<Name>)
    ensures |r| == |b| + 1
  {
    if b == [] then [x]
    else
      var last := b[|b| - 1];
      if Less(x, last) then Insert(b[..|b| - 1], x) + [last] else b + [x]
  }

  /** One scanned name: while there is room insert it, afterwards only in place of the smallest. */
  function Offer(b: seq<Name>, x: Name): seq<Name>
  {
    if |b| < KEEP then Insert(b, x) else if Less(b[0], x) then Insert(b[1..], x) else b
  }

  function Largest(names: seq<Name>): seq<Name>
  {
    if names == [] then [] else Offer(Largest(names[..|names| - 1]), names[|names| - 1])
  }

  lemma {:induction false} InsertKeeps(b: seq<Name>, x: Name)
    requires Ascending(b) && x !in b
    ensures Ascending(Insert(b, x)) && forall y :: y in Insert(b, x) <==> y in b || y == x
  {
    if b != [] {
      var p, last := b[..|b| - 1], b[|b| - 1];
      assert b == p + [last];
      LessTotal(x, last);
      if Less(x, last) {
        InsertKeeps(p, x);
        forall i | 0 <= i < |b| ensures Less(Insert(p, x)[i], last) {
          var y := Insert(p, x)[i];
          assert y in Insert(p, x);
          if y != x {
            var j :| 0 <= j < |p| && p[j] == y;
            assert b[j] == y;
          }
        }
      } else {
        forall i | 0 <= i < |b| ensures Less(b[i], x) {
          if i < |p| { LessTransitive(b[i], last, x); }
        }
      }
    }
  }

  /** `b` holds the largest of the names seen, as many as there is room for. */
  ghost predicate Top(b: seq<Name>, seen: seq<Name>)
  {
    && Ascending(b) && |b| == (if |seen| < KEEP then |seen| else KEEP)
    && (forall y :: y in b ==> y in seen)
    && (forall y :: y in seen && y !in b ==> |b| == KEEP && Less(y, b[0]))
  }

  lemma OfferMore(b: seq<Name>, seen: seq<Name>, x: Name)
    requires Top(b, seen) && x !in seen && |b| < KEEP
    ensures Top(Insert(b, x), seen + [x])
  {
    InsertKeeps(b, x);
  }

  lemma OfferInstead(b: seq<Name>, seen: seq<Name>, x: Name)
    requires Top(b, seen) && x !in seen && |b| == KEEP && Less(b[0], x)
    ensures Top(Insert(b[1..], x), seen + [x])
  {
    var t := b[1..];
    var r := Insert(t, x);
    assert b == [b[0]] + t;
    InsertKeeps(t, x);
    assert Less(b[0], r[0]) by {
      assert r[0] in t || r[0] == x;
      if r[0] in t {
        var j :| 0 <= j < |t| && t[j] == r[0];
        assert b[j + 1] == r[0];
      }
    }
    forall y | y in seen + [x] && y !in r ensures Less(y, r[0]) {
      if y != b[0] {
        assert y !in b;
        LessTransitive(y, b[0], r[0]);
      }
    }
  }

  lemma OfferNothing(b: seq<Name>, seen: seq<Name>, x: Name)
    requires Top(b, seen) && x !in seen && |b| == KEEP && !Less(b[0], x)
    ensures Top(b, seen + [x])
  {
    assert x !in b;
    LessTotal(b[0], x);
  }

  lemma {:induction false} LargestIsTop(names: seq<Name>)
    requires NoRepeats(names)
    ensures Top(Largest(names), names)
  {
    if names != [] {
      var p, x := names[..|names| - 1], names[|names| - 1];
      LargestIsTop(p);
      assert names == p + [x];
      var b := Largest(p);
      if |b| < KEEP {
        OfferMore(b, p, x);
      } else if Less(b[0], x) {
        OfferInstead(b, p, x);
      } else {
        OfferNothing(b, p, x);
      }
    }
  }

  // ---------------- the two passes ----------------

  predicate Doomed(n: Name, prefix: Name, threshold: Name)
  {
    HasPrefix(n, prefix) && Less(n, threshold)
  }

  /** The second pass, in which the refs of `stuck` cannot be deleted. */
  function Survivors(refs: seq<Name>, prefix: Name, threshold: Name, stuck: set<Name>): seq<Name>
  {
    if refs == [] then []
    else
      var s, last := Survivors(refs[..|refs| - 1], prefix, threshold, stuck), refs[|refs| - 1];
      if Doomed(last, prefix, threshold) && last !in stuck then s else s + [last]
  }

  /** What is left in the store; `|refs|` less its length is the number deleted. */
  function Pruned(refs: seq<Name>, prefix: Name, stuck: set<Name>): seq<Name>
  {
    var m := Matching(refs, prefix);
    if |m| <= KEEP || Largest(m) == [] then refs else Survivors(refs, prefix, Largest(m)[0], stuck)
  }

  lemma {:induction false} MatchingMembers(refs: seq<Name>, prefix: Name)
    requires NoRepeats(refs)
    ensures NoRepeats(Matching(refs, prefix))
    ensures forall y :: y in Matching(refs, prefix) <==> y in refs && HasPrefix(y, prefix)
  {
    if refs != [] {
      var p, last := refs[..|refs| - 1], refs[|refs| - 1];
      MatchingMembers(p, prefix);
      assert refs == p + [last];
      assert last !in p;
    }
  }

  lemma {:induction false} SurvivorMembers(refs: seq<Name>, prefix: Name, threshold: Name, stuck: set<Name>)
    ensures forall y :: y in Survivors(refs, prefix, threshold, stuck) <==>
      y in refs && (Doomed(y, prefix, threshold) ==> y in stuck)
  {
    if refs != [] {
      SurvivorMembers(refs[..|refs| - 1], prefix, threshold, stuck);
      assert refs == refs[..|refs| - 1] + [refs[|refs| - 1]];
    }
  }

  /** The names under the prefix that are newer than `n`. */
  ghost function Newer(refs: seq<Name>, prefix: Name, n: Name): set<Name>
  {
    set m | m in refs && HasPrefix(m, prefix) && Less(n, m)
  }

  lemma AscendingNoRepeats(b: seq<Name>)
    requires Ascending(b)
    ensures NoRepeats(b)
  {
    forall i, j | 0 <= i < j < |b| ensures b[i] != b[j] {
      LessAsymmetric(b[i], b[j]);
    }
  }

  /** A buffered name has fewer than 32 newer ones, any other at least 32. */
  lemma RankIsPlace(refs: seq<Name>, prefix: Name, b: seq<Name>, n: Name)
    requires |b| == KEEP && Ascending(b) && n in refs && HasPrefix(n, prefix)
    requires forall y :: y in b ==> y in refs && HasPrefix(y, prefix)
    requires forall y :: y in refs && HasPrefix(y, prefix) && y !in b ==> Less(y, b[0])
    ensures n in b <==> |Newer(refs, prefix, n)| < KEEP
  {
    AscendingNoRepeats(b);
    ElementsCount(b);
    var newer := Newer(refs, prefix, n);
    if n in b {
      forall m | m in newer ensures m in Elements(b) - {n} {
        LessAsymmetric(n, m);
        if m !in b { NotBelowFirst(b, n, m); }
      }
      SubsetSize(newer, Elements(b) - {n});
    } else {
      forall m | m in Elements(b) ensures m in newer {
        var j :| 0 <= j < |b| && b[j] == m;
        if j > 0 { LessTransitive(n, b[0], b[j]); }
      }
      SubsetSize(Elements(b), newer);
    }
  }

  /** Nothing below the buffer's first name is above one of its names. */
  lemma NotBelowFirst(b: seq<Name>, n: Name, m: Name)
    requires Ascending(b) && n in b && Less(m, b[0])
    ensures !Less(n, m)
  {
    var j :| 0 <= j < |b| && b[j] == n;
    if Less(n, m) {
      LessTransitive(n, m, b[0]);
      LessAsymmetric(n, b[0]);
    }
  }

  lemma BelowFirst(b: seq<Name>, n: Name)
    requires Ascending(b) && n in b
    ensures !Less(n, b[0])
  {
    var j :| 0 <= j < |b| && b[j] == n;
    LessAsymmetric(b[0], n);
    if j == 0 { LessAsymmetric(n, n); }
  }

  /** After pruning exactly the 32 newest names under the prefix are left, or all if there are fewer,
      besides those that could not be deleted, and every other ref is untouched. */
  lemma PruneKeepsNewest(refs: seq<Name>, prefix: Name, stuck: set<Name>)
    requires NoRepeats(refs)
    ensures forall n :: n in Pruned(refs, prefix, stuck) <==>
      n in refs && (HasPrefix(n, prefix) ==> |Newer(refs, prefix, n)| < KEEP || n in stuck)
  {
    var m := Matching(refs, prefix);
    MatchingMembers(refs, prefix);
    LargestIsTop(m);
    if |m| <= KEEP {
      forall n | n in refs && HasPrefix(n, prefix) ensures |Newer(refs, prefix, n)| < KEEP {
        FewAreNewer(refs, prefix, m, n);
      }
    } else {
      var b := Largest(m);
      SurvivorMembers(refs, prefix, b[0], stuck);
      forall n | n in refs && HasPrefix(n, prefix) ensures Doomed(n, prefix, b[0]) <==> |Newer(refs, prefix, n)| >= KEEP {
        RankIsPlace(refs, prefix, b, n);
        if n in b { BelowFirst(b, n); }
      }
    }
  }

  lemma FewAreNewer(refs: seq<Name>, prefix: Name, m: seq<Name>, n: Name)
    requires NoRepeats(m) && |m| <= KEEP && n in m && (forall y :: y in m <==> y in refs && HasPrefix(y, prefix))
    ensures |Newer(refs, prefix, n)| < KEEP
  {
    ElementsCount(m);
    forall y | y in Newer(refs, prefix, n) ensures y in Elements(m) - {n} {
      LessAsymmetric(n, y);
    }
    SubsetSize(Newer(refs, prefix, n), Elements(m) - {n});
  }

  /** The names with at least 32 newer ones. */
  ghost function Excess(refs: seq<Name>, prefix: Name): set<Name>
  {
    set n | n in refs && HasPrefix(n, prefix) && |Newer(refs, prefix, n)| >= KEEP
  }

  function Over(total: nat): nat
  {
    if total <= KEEP then 0 else total - KEEP
  }

  lemma ExcessCount(refs: seq<Name>, prefix: Name)
    requires NoRepeats(refs)
    ensures |Excess(refs, prefix)| == Over(|Matching(refs, prefix)|)
  {
    var m := Matching(refs, prefix);
    MatchingMembers(refs, prefix);
    LargestIsTop(m);
    if |m| <= KEEP {
      forall n | n in refs && HasPrefix(n, prefix) ensures |Newer(refs, prefix, n)| < KEEP {
        FewAreNewer(refs, prefix, m, n);
      }
      assert Excess(refs, prefix) == {};
    } else {
      var b := Largest(m);
      AscendingNoRepeats(b);
      ElementsCount(b);
      ElementsCount(m);
      forall n | n in m ensures n in b <==> n !in Excess(refs, prefix) {
        RankIsPlace(refs, prefix, b, n);
      }
      DisjointSize(Elements(b), Excess(refs, prefix), Elements(m));
    }
  }

  /** The number deleted is the excess over 32, less what could not be deleted. */
  lemma PruneCounts(refs: seq<Name>, prefix: Name, stuck: set<Name>)
    requires NoRepeats(refs)
    ensures |refs| - |Pruned(refs, prefix, stuck)| == |Excess(refs, prefix) - stuck|
    ensures stuck == {} ==> |refs| - |Pruned(refs, prefix, stuck)| == Over(|Matching(refs, prefix)|)
  {
    var left, gone := Pruned(refs, prefix, stuck), Excess(refs, prefix) - stuck;
    PruneKeepsNewest(refs, prefix, stuck);
    PrunedDistinct(refs, prefix, stuck);
    ElementsCount(refs);
    ElementsCount(left);
    DisjointSize(Elements(left), gone, Elements(refs));
    ExcessCount(refs, prefix);
    assert stuck == {} ==> gone == Excess(refs, prefix);
  }

  lemma PrunedDistinct(refs: seq<Name>, prefix: Name, stuck: set<Name>)
    requires NoRepeats(refs)
    ensures NoRepeats(Pruned(refs, prefix, stuck))
  {
    var b := Largest(Matching(refs, prefix));
    if b != [] {
      SurvivorsDistinct(refs, prefix, b[0], stuck);
    }
  }

  lemma {:induction false} SurvivorsDistinct(refs: seq<Name>, prefix: Name, threshold: Name, stuck: set<Name>)
    requires NoRepeats(refs)
    ensures NoRepeats(Survivors(refs, prefix, threshold, stuck))
  {
    if refs != [] {
      var p, last := refs[..|refs| - 1], refs[|refs| - 1];
      SurvivorsDistinct(p, prefix, threshold, stuck);
      SurvivorMembers(p, prefix, threshold, stuck);
      assert last !in p;
    }
  }

  // ---------------- in place ----------------

  /** Where `x` goes: past the last name that is not larger. */
  lemma {:induction false} InsertAt(b: seq<Name>, i: nat, x: Name)
    requires i <= |b| && (i == 0 || !Less(x, b[i - 1])) && forall j :: i <= j < |b| ==> Less(x, b[j])
    ensures Insert(b, x) == b[..i] + [x] + b[i..]
    decreases |b|
  {
    if i == |b| {
      assert b[..i] == b && b[i..] == [];
    } else {
      var p, last := b[..|b| - 1], b[|b| - 1];
      InsertAt(p, i, x);
      assert p[..i] == b[..i] && b[i..] == p[i..] + [last];
      assert (b[..i] + [x] + p[i..]) + [last] == b[..i] + [x] + b[i..];
    }
  }

  /** Insert by shifting larger names up. */
  method InsertInto(names: array<Name>, n: nat, x: Name)
    requires n < names.Length
    modifies names
    ensures names[..n + 1] == Insert(old(names[..n]), x)
  {
    ghost var b := names[..n];
    var i := n;
    while i > 0 && Less(x, names[i - 1])
      invariant 0 <= i <= n
      invariant forall j :: 0 <= j < i ==> names[j] == b[j]
      invariant forall j :: i < j <= n ==> names[j] == b[j - 1]
      invariant forall j :: i <= j < n ==> Less(x, b[j])
    {
      names[i] := names[i - 1];
      i := i - 1;
    }
    names[i] := x;
    InsertAt(b, i, x);
    ShiftedUp(names[..n + 1], b, i, x);
  }

  lemma ShiftedUp(s: seq<Name>, b: seq<Name>, i: nat, x: Name)
    requires |s| == |b| + 1 && i <= |b| && s[i] == x
    requires (forall j :: 0 <= j < i ==> s[j] == b[j]) && (forall j :: i < j < |s| ==> s[j] == b[j - 1])
    ensures s == b[..i] + [x] + b[i..]
  {
  }

  lemma {:induction false} InsertFront(h: Name, b: seq<Name>, x: Name)
    requires Ascending([h] + b) && Less(h, x)
    ensures Insert([h] + b, x) == [h] + Insert(b, x)
  {
    if b == [] {
      LessAsymmetric(h, x);
      assert [h] + b == [h] && [h] + [x] == [h, x];
    } else {
      var last := b[|b| - 1];
      assert ([h] + b)[..|b|] == [h] + b[..|b| - 1];
      if Less(x, last) {
        InsertFront(h, b[..|b| - 1], x);
      }
    }
  }

  lemma {:induction false} InsertLow(b: seq<Name>, x: Name)
    requires Ascending(b) && b != [] && Less(x, b[0])
    ensures Insert(b, x) == [x] + b
    decreases |b|
  {
    var p, last := b[..|b| - 1], b[|b| - 1];
    if p == [] {
      assert Insert(p, x) == [x] && [x] + [last] == [x] + b;
    } else {
      assert Less(b[0], last);
      LessTransitive(x, b[0], last);
      InsertLow(p, x);
      assert [x] + p + [last] == [x] + b;
    }
  }

  /** The names below `x` stay in front of it. */
  lemma InsertPast(b: seq<Name>, i: nat, x: Name)
    requires Ascending(b) && i + 1 < |b| && Less(b[i + 1], x)
    ensures b[1..i + 1] + Insert(b[i + 1..], x) == b[1..i + 2] + Insert(b[i + 2..], x)
  {
    var h, t := b[i + 1], b[i + 2..];
    assert b[i + 1..] == [h] + t;
    InsertFront(h, t, x);
    assert b[1..i + 2] == b[1..i + 1] + [h];
    assert b[1..i + 1] + ([h] + Insert(t, x)) == (b[1..i + 1] + [h]) + Insert(t, x);
  }

  lemma InsertHere(b: seq<Name>, i: nat, x: Name)
    requires Ascending(b) && x !in b && i < |b| && (i + 1 == |b| || !Less(b[i + 1], x))
    ensures Insert(b[i + 1..], x) == [x] + b[i + 1..]
  {
    if i + 1 < |b| {
      LessTotal(b[i + 1], x);
      InsertLow(b[i + 1..], x);
    }
  }

  /** `x` belongs after the first `i` names that follow the smallest. */
  ghost predicate ShiftedTo(b: seq<Name>, i: nat, x: Name)
    requires i < |b|
  {
    Insert(b[1..], x) == b[1..i + 1] + Insert(b[i + 1..], x)
  }

  lemma ShiftStarts(b: seq<Name>, x: Name)
    requires b != []
    ensures ShiftedTo(b, 0, x)
  {
    assert b[1..1] + Insert(b[1..], x) == Insert(b[1..], x);
  }

  lemma ShiftEnds(s: seq<Name>, b: seq<Name>, i: nat, x: Name)
    requires Ascending(b) && x !in b && |s| == |b| && i < |b| && ShiftedTo(b, i, x)
    requires i + 1 == |b| || !Less(b[i + 1], x)
    requires s[i] == x && (forall j :: 0 <= j < i ==> s[j] == b[j + 1]) && (forall j :: i < j < |b| ==> s[j] == b[j])
    ensures s == Insert(b[1..], x)
  {
    InsertHere(b, i, x);
    assert s == b[1..i + 1] + ([x] + b[i + 1..]);
  }

  /** Replace the smallest name by shifting smaller names down. */
  method ReplaceSmallest(names: array<Name>, x: Name)
    requires names.Length == KEEP && Ascending(names[..]) && x !in names[..] && Less(names[0], x)
    modifies names
    ensures names[..] == Insert(old(names[..])[1..], x)
  {
    ghost var b := names[..];
    var i := 0;
    ShiftStarts(b, x);
    while i + 1 < KEEP && Less(names[i + 1], x)
      invariant 0 <= i < KEEP
      invariant forall j :: 0 <= j < i ==> names[j] == b[j + 1]
      invariant forall j :: i < j < KEEP ==> names[j] == b[j]
      invariant ShiftedTo(b, i, x)
    {
      InsertPast(b, i, x);
      names[i] := names[i + 1];
      i := i + 1;
    }
    names[i] := x;
    ShiftEnds(names[..], b, i, x);
  }

  /** One pass of the scan over the store's refs. */
  method Scan(refs: seq<Name>, prefix: Name, names: array<Name>) returns (n: nat, total: nat)
    requires names.Length == KEEP && NoRepeats(refs)
    modifies names
    ensures n <= KEEP && names[..n] == Largest(Matching(refs, prefix)) && total == |Matching(refs, prefix)|
  {
    n, total := 0, 0;
    for k := 0 to |refs|
      invariant n <= KEEP && names[..n] == Largest(Matching(refs[..k], prefix)) && total == |Matching(refs[..k], prefix)|
    {
      ghost var m := Matching(refs[..k], prefix);
      assert refs[..k + 1][..k] == refs[..k];
      if HasPrefix(refs[k], prefix) {
        MatchingMembers(refs[..k], prefix);
        LargestIsTop(m);
        assert refs[k] !in m;
        assert (m + [refs[k]])[..|m|] == m;
        n := OfferTo(names, n, refs[k]);
        total := total + 1;
      }
    }
    assert refs[..|refs|] == refs;
  }

  method OfferTo(names: array<Name>, n: nat, x: Name) returns (n': nat)
    requires names.Length == KEEP && n <= KEEP && Ascending(names[..n]) && x !in names[..n]
    modifies names
    ensures n' <= KEEP && names[..n'] == Offer(old(names[..n]), x)
  {
    n' := n;
    if n < KEEP {
      InsertInto(names, n, x);
      n' := n + 1;
    } else {
      assert names[..n] == names[..];
      if Less(names[0], x) {
        ReplaceSmallest(names, x);
      }
      assert names[..n] == names[..];
    }
  }

  /** Both passes: scan for the retention threshold, then delete everything below it. */
  method Prune(refs: seq<Name>, prefix: Name, stuck: set<Name>) returns (left: seq<Name>, deleted: nat)
    requires NoRepeats(refs)
    ensures left == Pruned(refs, prefix, stuck) && deleted == |refs| - |left|
  {
    var names := new Name[KEEP](_ => []);
    var n, total := Scan(refs, prefix, names);
    MatchingMembers(refs, prefix);
    LargestIsTop(Matching(refs, prefix));
    if total <= KEEP {
      return refs, 0;
    }
    var threshold := names[0];
    left, deleted := [], 0;
    for k := 0 to |refs|
      invariant left == Survivors(refs[..k], prefix, threshold, stuck) && deleted == k - |left|
    {
      assert refs[..k + 1][..k] == refs[..k];
      if HasPrefix(refs[k], prefix) && Less(refs[k], threshold) && refs[k] !in stuck {
        deleted := deleted + 1;
      } else {
        left := left + [refs[k]];
      }
    }
    assert refs[..|refs|] == refs;
  }
}
