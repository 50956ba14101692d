/**
Dependency graphs of ROS packages, as seen by rtt_ros2::import.

A package is found if the lookup in the ament index or its package.xml succeeds; then its search path
and the list of its plugin dependencies are known. The lookup is a map that does not change meanwhile.
*/
module DependencyGraph {
  import opened Wrappers
  import opened Sequences

  type Package = string
  datatype PackageInfo = PackageInfo(searchPath: string, depends: seq<Package>)
  type Index = map<Package, PackageInfo>

  /** A dependency path: which dependency to follow at each package, starting at the root. */
  type Address = seq<nat>

  /** The package at the end of a dependency path; None if there is no such path. */
  function Follow(idx: Index, root: Package, w: Address): Option<Package>
    decreases |w|
  {
    if w == [] then Some(root) else
      var p := Follow(idx, root, w[..|w| - 1]);
      if p.Some? && p.value in idx && w[|w| - 1] < |idx[p.value].depends|
      then Some(idx[p.value].depends[w[|w| - 1]])
      else None
  }

  /** w is a dependency path from the root to a package which is found. */
  predicate LeadsToFound(idx: Index, root: Package, w: Address) {
    var p := Follow(idx, root, w);
    p.Some? && p.value in idx
  }

  ghost predicate Reachable(idx: Index, root: Package, p: Package) {
    exists w: Address :: Follow(idx, root, w) == Some(p)
  }

  /** No package is repeated on a dependency path from the root. */
  ghost predicate NoCycle(idx: Index, root: Package) {
    forall w: Address, i, j | 0 <= i < j <= |w| && Follow(idx, root, w).Some? ::
      Follow(idx, root, w[..i]) != Follow(idx, root, w[..j])
  }

  lemma FollowPrefix(idx: Index, root: Package, w: Address, i: nat)
    requires i <= |w| && Follow(idx, root, w).Some?
    ensures Follow(idx, root, w[..i]).Some?
    ensures i < |w| ==> Follow(idx, root, w[..i]).value in idx
    decreases |w|
  {
    if i == |w| {
      assert w[..i] == w;
    } else if i < |w| - 1 {
      FollowPrefix(idx, root, w[..|w| - 1], i);
      assert w[..|w| - 1][..i] == w[..i];
    }
  }

  lemma {:induction false} FollowConcat(idx: Index, root: Package, v: Address, w: Address)
    requires Follow(idx, root, v).Some?
    ensures Follow(idx, root, v + w) == Follow(idx, Follow(idx, root, v).value, w)
    decreases |w|
  {
    if w == [] {
      assert v + w == v;
    } else {
      assert (v + w)[..|v + w| - 1] == v + w[..|w| - 1];
      FollowConcat(idx, root, v, w[..|w| - 1]);
    }
  }

  // ---------------------------------------------------------------------------------------------
  // Bounded depth

  /** All dependency paths from p visit at most n found packages. */
  predicate Bounded(idx: Index, p: Package, n: nat)
    decreases n
  {
    p in idx ==> n > 0 && forall d | d in idx[p].depends :: Bounded(idx, d, n - 1)
  }

  lemma BoundedMore(idx: Index, p: Package, n: nat, m: nat)
    requires Bounded(idx, p, n) && n <= m
    ensures Bounded(idx, p, m)
    decreases n
  {
    if p in idx {
      forall d | d in idx[p].depends ensures Bounded(idx, d, m - 1) {
        BoundedMore(idx, d, n - 1, m - 1);
      }
    }
  }

  lemma {:induction false} DistinctFit<T>(s: seq<T>, universe: set<T>)
    requires Distinct(s) && forall x | x in s :: x in universe
    ensures |s| <= |universe|
    decreases |s|
  {
    if s == [] {
    } else {
      var rest := s[1..];
      forall x | x in rest ensures x in universe - {s[0]} {
        assert x in s;
      }
      DistinctFit(rest, universe - {s[0]});
    }
  }

  /** The packages visited by a dependency path before its end. */
  function Visited(idx: Index, root: Package, w: Address): (ps: seq<Package>)
    requires Follow(idx, root, w).Some?
    ensures |ps| == |w|
    ensures forall i | 0 <= i < |w| :: Some(ps[i]) == Follow(idx, root, w[..i]) && ps[i] in idx
    decreases |w|
  {
    if w == [] then [] else
      var v := w[..|w| - 1];
      assert forall i | 0 <= i < |v| :: v[..i] == w[..i];
      Visited(idx, root, v) + [Follow(idx, root, v).value]
  }

  /** Without a cycle no dependency path is longer than there are packages. */
  lemma NoCycleBoundsPaths(idx: Index, root: Package, w: Address)
    requires NoCycle(idx, root) && Follow(idx, root, w).Some?
    ensures |w| + (if LeadsToFound(idx, root, w) then 1 else 0) <= |idx|
  {
    var p := Follow(idx, root, w).value;
    var ps := Visited(idx, root, w) + if p in idx then [p] else [];
    forall i, j | 0 <= i < j < |ps| ensures ps[i] != ps[j] {
      assert w[..|w|] == w;
      assert Follow(idx, root, w[..i]) != Follow(idx, root, w[..j]);
    }
    DistinctFit(ps, idx.Keys);
  }

  lemma {:induction false} NoCycleIsBounded(idx: Index, root: Package, w: Address)
    requires NoCycle(idx, root) && Follow(idx, root, w).Some?
    ensures |w| <= |idx| && Bounded(idx, Follow(idx, root, w).value, |idx| - |w|)
    decreases |idx| - |w|
  {
    NoCycleBoundsPaths(idx, root, w);
    var p := Follow(idx, root, w).value;
    if p in idx {
      forall d | d in idx[p].depends ensures Bounded(idx, d, |idx| - |w| - 1) {
        var j: nat :| j < |idx[p].depends| && idx[p].depends[j] == d;
        assert (w + [j])[..|w|] == w;
        NoCycleBoundsPaths(idx, root, w + [j]);
        NoCycleIsBounded(idx, root, w + [j]);
      }
    }
  }

  lemma {:induction false} BoundedAlong(idx: Index, p: Package, w: Address, n: nat)
    requires Bounded(idx, p, n) && Follow(idx, p, w).Some?
    ensures |w| <= n && Bounded(idx, Follow(idx, p, w).value, n - |w|)
    decreases |w|
  {
    if w == [] {
    } else {
      var v := w[..|w| - 1];
      BoundedAlong(idx, p, v, n);
      assert Bounded(idx, Follow(idx, p, v).value, n - |v|);
      assert Follow(idx, p, w).value in idx[Follow(idx, p, v).value].depends;
    }
  }

  lemma {:induction false} BoundedHasNoLoop(idx: Index, p: Package, w: Address, n: nat)
    requires Bounded(idx, p, n) && w != []
    ensures Follow(idx, p, w) != Some(p)
    decreases n
  {
    if Follow(idx, p, w) == Some(p) {
      BoundedAlong(idx, p, w, n);
      BoundedHasNoLoop(idx, p, w, n - |w|);
    }
  }

  lemma BoundedHasNoCycle(idx: Index, root: Package, n: nat)
    requires Bounded(idx, root, n)
    ensures NoCycle(idx, root)
  {
    forall w: Address, i, j | 0 <= i < j <= |w| && Follow(idx, root, w).Some?
      ensures Follow(idx, root, w[..i]) != Follow(idx, root, w[..j])
    {
      FollowPrefix(idx, root, w, i);
      FollowPrefix(idx, root, w, j);
      BoundedAlong(idx, root, w[..i], n);
      assert w[..i] + w[i..j] == w[..j];
      FollowConcat(idx, root, w[..i], w[i..j]);
      BoundedHasNoLoop(idx, Follow(idx, root, w[..i]).value, w[i..j], n - i);
    }
  }

  // ---------------------------------------------------------------------------------------------
  // Weight: the number of dependency paths

  ghost predicate AllBounded(idx: Index, ps: seq<Package>, n: nat) {
    forall p | p in ps :: Bounded(idx, p, n)
  }

  ghost function Weight(idx: Index, p: Package, n: nat): nat
    requires Bounded(idx, p, n)
    decreases n, 0
  {
    1 + if p in idx then TotalWeight(idx, idx[p].depends, n - 1) else 0
  }

  ghost function TotalWeight(idx: Index, ps: seq<Package>, n: nat): nat
    requires AllBounded(idx, ps, n)
    decreases n, 1, |ps|
  {
    if ps == [] then 0 else Weight(idx, ps[0], n) + TotalWeight(idx, ps[1..], n)
  }

  lemma {:induction false} TotalWeightConcat(idx: Index, ps: seq<Package>, qs: seq<Package>, n: nat)
    requires AllBounded(idx, ps, n) && AllBounded(idx, qs, n)
    ensures AllBounded(idx, ps + qs, n)
    ensures TotalWeight(idx, ps + qs, n) == TotalWeight(idx, ps, n) + TotalWeight(idx, qs, n)
    decreases |ps|
  {
    if ps == [] {
      assert ps + qs == qs;
    } else {
      assert (ps + qs)[1..] == ps[1..] + qs;
      TotalWeightConcat(idx, ps[1..], qs, n);
    }
  }

  lemma {:induction false} WeightMore(idx: Index, p: Package, n: nat)
    requires Bounded(idx, p, n)
    ensures Bounded(idx, p, n + 1) && Weight(idx, p, n + 1) == Weight(idx, p, n)
    decreases n, 0, 0
  {
    BoundedMore(idx, p, n, n + 1);
    if p in idx { TotalWeightMore(idx, idx[p].depends, n - 1); }
  }

  lemma {:induction false} TotalWeightMore(idx: Index, ps: seq<Package>, n: nat)
    requires AllBounded(idx, ps, n)
    ensures AllBounded(idx, ps, n + 1) && TotalWeight(idx, ps, n + 1) == TotalWeight(idx, ps, n)
    decreases n, 1, |ps|
  {
    if ps == [] {
    } else {
      WeightMore(idx, ps[0], n);
      TotalWeightMore(idx, ps[1..], n);
      assert ps == [ps[0]] + ps[1..];
    }
  }

  // ---------------------------------------------------------------------------------------------
  // The worklist of import

  /** One iteration: the front is popped and, if found, its dependencies are pushed. */
  function NextQueue(idx: Index, queue: seq<Package>): seq<Package> {
    if queue == [] then []
    else queue[1..] + if queue[0] in idx then idx[queue[0]].depends else []
  }

  function Iterate(idx: Index, queue: seq<Package>, k: nat): seq<Package>
    decreases k
  {
    if k == 0 then queue else Iterate(idx, NextQueue(idx, queue), k - 1)
  }

  /** Every iteration lowers the total weight of the queue by exactly one. */
  lemma IterationDropsWeight(idx: Index, queue: seq<Package>, n: nat)
    requires queue != [] && AllBounded(idx, queue, n)
    ensures AllBounded(idx, NextQueue(idx, queue), n)
    ensures TotalWeight(idx, NextQueue(idx, queue), n) == TotalWeight(idx, queue, n) - 1
  {
    var p := queue[0];
    if p in idx {
      assert Bounded(idx, p, n);
      TotalWeightMore(idx, idx[p].depends, n - 1);
      TotalWeightConcat(idx, queue[1..], idx[p].depends, n);
    } else {
      assert queue[1..] + [] == queue[1..];
    }
  }

  lemma {:induction false} WeightIterationsSuffice(idx: Index, queue: seq<Package>, n: nat)
    requires AllBounded(idx, queue, n)
    ensures Iterate(idx, queue, TotalWeight(idx, queue, n)) == []
    decreases TotalWeight(idx, queue, n)
  {
    if queue == [] {
    } else {
      IterationDropsWeight(idx, queue, n);
      WeightIterationsSuffice(idx, NextQueue(idx, queue), n);
    }
  }

  lemma {:induction false} EmptiedQueueIsBounded(idx: Index, queue: seq<Package>, k: nat)
    requires Iterate(idx, queue, k) == []
    ensures AllBounded(idx, queue, k)
    decreases k
  {
    if k == 0 || queue == [] {
    } else {
      EmptiedQueueIsBounded(idx, NextQueue(idx, queue), k - 1);
      forall p | p in queue ensures Bounded(idx, p, k) {
        if p in queue[1..] {
          assert p in NextQueue(idx, queue);
          BoundedMore(idx, p, k - 1, k);
        } else if p in idx {
          forall d | d in idx[p].depends ensures Bounded(idx, d, k - 1) {
            assert d in NextQueue(idx, queue);
          }
        }
      }
    }
  }

  /** The worklist of import, which has no visited set, is emptied if and only if no cycle is reachable. */
  lemma TerminatesIffNoCycle(idx: Index, root: Package)
    ensures (exists k: nat :: Iterate(idx, [root], k) == []) <==> NoCycle(idx, root)
  {
    if NoCycle(idx, root) {
      NoCycleIsBounded(idx, root, []);
      WeightIterationsSuffice(idx, [root], |idx|);
    }
    if k: nat :| Iterate(idx, [root], k) == [] {
      EmptiedQueueIsBounded(idx, [root], k);
      assert root in [root];
      BoundedHasNoCycle(idx, root, k);
    }
  }

  /** A package that depends on itself; the worklist always holds it. */
  const SELF_DEPENDENT: Index := map["a" := PackageInfo("", ["a"])]

  lemma {:induction false} CycleKeepsQueue(k: nat)
    ensures Iterate(SELF_DEPENDENT, ["a"], k) == ["a"]
    decreases k
  {
    if k == 0 {
    } else {
      assert NextQueue(SELF_DEPENDENT, ["a"]) == ["a"];
      CycleKeepsQueue(k - 1);
    }
  }

  /** An input on which import does not end. */
  lemma CyclicImportDoesNotEnd()
    ensures !NoCycle(SELF_DEPENDENT, "a")
    ensures forall k: nat :: Iterate(SELF_DEPENDENT, ["a"], k) != []
  {
    forall k: nat ensures Iterate(SELF_DEPENDENT, ["a"], k) != [] { CycleKeepsQueue(k); }
    TerminatesIffNoCycle(SELF_DEPENDENT, "a");
  }
}
