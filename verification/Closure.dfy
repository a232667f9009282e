/** The object-closure check before a ref is moved: a walk over child edges that stops silently once it
    is more than sixteen edges deep. */
module Closure {

  const DEPTH_MAX: nat := 16

  type Hash = nat

  /** An object that cannot be enumerated, or its children in order. */
  datatype Object = Unreadable | Object(children: seq<Hash>)

  type Store = map<Hash, Object>

  // ---------------- the walk ----------------

  /** What the walk concludes about `h` found `depth` edges below the root. */
  predicate Walk(store: Store, h: Hash, depth: nat)
    decreases if depth <= DEPTH_MAX then DEPTH_MAX + 1 - depth else 0, 1, 0
  {
    depth > DEPTH_MAX || (h in store && store[h].Object? && WalkAll(store, store[h].children, depth + 1))
  }

  predicate WalkAll(store: Store, hs: seq<Hash>, depth: nat)
    decreases if depth <= DEPTH_MAX then DEPTH_MAX + 1 - depth else 0, 2, |hs|
  {
    hs == [] || (Walk(store, hs[0], depth) && WalkAll(store, hs[1..], depth))
  }

  /** The walk's mutable context. */
  class Context {
    var complete: bool
    var depth: nat

    constructor ()
      ensures complete && depth == 0
    {
      complete, depth := true, 0;
    }

    method Visit(store: Store, h: Hash)
      modifies this
      ensures depth == old(depth) && complete == (old(complete) && Walk(store, h, depth))
      decreases if depth <= DEPTH_MAX then DEPTH_MAX + 1 - depth else 0, 1, 0
    {
      if !complete || depth > DEPTH_MAX { return; }
      if h !in store {
        complete := false;
        return;
      }
      if store[h].Unreadable? {
        complete := false;
      } else {
        depth := depth + 1;
        VisitAll(store, store[h].children);
        depth := depth - 1;
      }
    }

    /** The children in order, until one is found incomplete. */
    method VisitAll(store: Store, hs: seq<Hash>)
      requires complete
      modifies this
      ensures depth == old(depth) && complete == WalkAll(store, hs, depth)
      decreases if depth <= DEPTH_MAX then DEPTH_MAX + 1 - depth else 0, 2, |hs|
    {
      if hs == [] { return; }
      Visit(store, hs[0]);
      if complete {
        VisitAll(store, hs[1..]);
      }
    }
  }

  // ---------------- what it means ----------------

  /** `path` leads from `h` along child edges of objects that are present. */
  ghost predicate Path(store: Store, h: Hash, path: seq<Hash>)
    decreases |path|
  {
    path == [] || (h in store && store[h].Object? && path[0] in store[h].children && Path(store, path[0], path[1..]))
  }

  ghost function End(h: Hash, path: seq<Hash>): Hash
  {
    if path == [] then h else path[|path| - 1]
  }

  predicate Present(store: Store, h: Hash)
  {
    h in store && store[h].Object?
  }

  /** Everything reachable from `h` by at most `n` edges is present. */
  ghost predicate CompleteTo(store: Store, h: Hash, n: nat)
  {
    forall path :: |path| <= n && Path(store, h, path) ==> Present(store, End(h, path))
  }

  ghost predicate Complete(store: Store, h: Hash)
  {
    forall path :: Path(store, h, path) ==> Present(store, End(h, path))
  }

  lemma {:induction false} AllMeans(store: Store, hs: seq<Hash>, depth: nat)
    ensures WalkAll(store, hs, depth) <==> forall x :: x in hs ==> Walk(store, x, depth)
    decreases |hs|
  {
    if hs != [] {
      AllMeans(store, hs[1..], depth);
      assert hs[0] in hs && forall x :: x in hs <==> x == hs[0] || x in hs[1..];
    }
  }

  lemma StepIn(store: Store, h: Hash, x: Hash, n: nat)
    requires Present(store, h) && x in store[h].children && CompleteTo(store, h, n + 1)
    ensures CompleteTo(store, x, n)
  {
    forall path | |path| <= n && Path(store, x, path) ensures Present(store, End(x, path)) {
      var longer := [x] + path;
      assert longer[1..] == path;
      assert Path(store, h, longer) && End(h, longer) == End(x, path);
    }
  }

  lemma StepOut(store: Store, h: Hash, n: nat)
    requires Present(store, h) && forall x :: x in store[h].children ==> CompleteTo(store, x, n)
    ensures CompleteTo(store, h, n + 1)
  {
    forall path | |path| <= n + 1 && Path(store, h, path) ensures Present(store, End(h, path)) {
      if path != [] {
        assert CompleteTo(store, path[0], n);
        assert Path(store, path[0], path[1..]) && End(path[0], path[1..]) == End(h, path);
      }
    }
  }

  /** The walk from `depth` says exactly that everything within the remaining edges is present. */
  lemma {:induction false} WalkMeans(store: Store, h: Hash, depth: nat)
    requires depth <= DEPTH_MAX
    ensures Walk(store, h, depth) <==> CompleteTo(store, h, DEPTH_MAX - depth)
    decreases DEPTH_MAX - depth
  {
    assert Path(store, h, []) && End(h, []) == h;
    if Present(store, h) {
      var hs, n := store[h].children, DEPTH_MAX - depth;
      AllMeans(store, hs, depth + 1);
      if depth == DEPTH_MAX {
        forall path | |path| <= 0 && Path(store, h, path) ensures Present(store, End(h, path)) {
        }
      } else {
        forall x | x in hs ensures Walk(store, x, depth + 1) <==> CompleteTo(store, x, n - 1) {
          WalkMeans(store, x, depth + 1);
        }
        if CompleteTo(store, h, n) {
          forall x | x in hs ensures CompleteTo(store, x, n - 1) {
            StepIn(store, h, x, n - 1);
          }
        }
        if forall x :: x in hs ==> CompleteTo(store, x, n - 1) {
          StepOut(store, h, n - 1);
        }
      }
    }
  }

  /** No path from `h` is longer than the walk looks. */
  ghost predicate Shallow(store: Store, h: Hash)
  {
    forall path :: Path(store, h, path) ==> |path| <= DEPTH_MAX
  }

  /** On structures no deeper than sixteen edges, the check is exactly completeness of the closure. */
  lemma ShallowWalkIsComplete(store: Store, h: Hash)
    requires Shallow(store, h)
    ensures Walk(store, h, 0) <==> Complete(store, h)
  {
    WalkMeans(store, h, 0);
  }

  /** A chain of objects 0, 1, 2, ... in which number `n` is the first missing. */
  ghost function Chain(n: nat): (m: Store)
    ensures forall i: nat :: i in m <==> i < n
    ensures forall i: nat :: i in m ==> m[i] == Object([i + 1])
  {
    if n == 0 then map[] else Chain(n - 1)[n - 1 := Object([n])]
  }

  lemma {:induction false} ChainWalks(n: nat, i: nat)
    requires i <= n
    ensures Walk(Chain(n), i, i) <==> n > DEPTH_MAX
    decreases n - i
  {
    if i <= DEPTH_MAX && i < n {
      ChainWalks(n, i + 1);
      assert [i + 1][1..] == [];
      assert WalkAll(Chain(n), [i + 1], i + 1) <==> Walk(Chain(n), i + 1, i + 1);
    }
  }

  lemma {:induction false} ChainPath(n: nat, i: nat) returns (path: seq<Hash>)
    requires i <= n
    ensures Path(Chain(n), i, path) && End(i, path) == n
    decreases n - i
  {
    if i == n {
      path := [];
    } else {
      var rest := ChainPath(n, i + 1);
      path := [i + 1] + rest;
      assert path[1..] == rest;
    }
  }

  /** A hole more than sixteen edges down goes unnoticed: the chain is never complete, and the walk
      says that it is exactly when the missing object is out of its sight. */
  lemma DeepHoleUnnoticed(n: nat)
    ensures !Complete(Chain(n), 0) && (Walk(Chain(n), 0, 0) <==> n > DEPTH_MAX)
  {
    ChainWalks(n, 0);
    var path := ChainPath(n, 0);
    assert !Present(Chain(n), End(0, path));
  }
}
