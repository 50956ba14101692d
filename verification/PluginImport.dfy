/**
rtt_ros2::import: collecting the dependencies of a package with a worklist that has no visited set,
building the search path, and importing the collected packages in reverse order.
*/
module PluginImport {
  import opened Wrappers
  import opened Sequences
  import opened DependencyGraph
  import opened SearchPath

  // ---------------------------------------------------------------------------------------------
  // Breadth-first order of dependency paths

  /** At the first difference v follows an earlier dependency than w. */
  predicate LexBefore(v: Address, w: Address) {
    |v| == |w| && exists i | 0 <= i < |v| :: v[..i] == w[..i] && v[i] < w[i]
  }

  /** Shorter paths first, paths of equal length in lexicographic order. */
  predicate Before(v: Address, w: Address) { |v| < |w| || LexBefore(v, w) }

  ghost predicate BreadthFirst(ws: seq<Address>) {
    forall i, j | 0 <= i < j < |ws| :: Before(ws[i], ws[j])
  }

  lemma BeforeIsStrict(v: Address, w: Address)
    requires Before(v, w)
    ensures !Before(w, v)
  {
    if LexBefore(v, w) {
      var i :| 0 <= i < |v| && v[..i] == w[..i] && v[i] < w[i];
      forall j | 0 <= j < |w| ensures !(w[..j] == v[..j] && w[j] < v[j]) {
        if i < j {
          assert w[..j][i] == w[i] && v[..j][i] == v[i];
        } else if j < i {
          assert w[..i][j] == w[j] && v[..i][j] == v[j];
        }
      }
    }
  }

  /** A dependency of an earlier path comes before any dependency of a later one. */
  lemma ChildBefore(v: Address, w: Address, a: nat, b: nat)
    requires Before(v, w) || (v == w && a < b)
    ensures Before(v + [a], w + [b])
  {
    if LexBefore(v, w) {
      var i :| 0 <= i < |v| && v[..i] == w[..i] && v[i] < w[i];
      assert (v + [a])[..i] == v[..i] && (w + [b])[..i] == w[..i];
      assert (v + [a])[i] < (w + [b])[i];
    } else if v == w {
      assert (v + [a])[..|v|] == v && (w + [b])[..|v|] == w;
      assert (v + [a])[|v|] < (w + [b])[|v|];
    }
  }

  /** The order and the set of paths determine the list. */
  lemma {:induction false} BreadthFirstIsUnique(a: seq<Address>, b: seq<Address>)
    requires BreadthFirst(a) && BreadthFirst(b) && forall w :: w in a <==> w in b
    ensures a == b
    decreases |a|
  {
    assert (a != [] ==> a[0] in b) && (b != [] ==> b[0] in a);
    if a == [] {
    } else {
      SameFirst(a, b);
      forall w ensures w in a[1..] <==> w in b[1..] {
        NotFirst(a, w);
        NotFirst(b, w);
      }
      BreadthFirstIsUnique(a[1..], b[1..]);
      assert a == [a[0]] + a[1..] && b == [b[0]] + b[1..];
    }
  }

  lemma NotFirst(a: seq<Address>, w: Address)
    requires a != [] && BreadthFirst(a)
    ensures w in a[1..] <==> w in a && w != a[0]
  {
    if w in a[1..] {
      var i :| 0 <= i < |a[1..]| && a[1..][i] == w;
      assert Before(a[0], a[i + 1]);
      BeforeIsStrict(a[0], a[i + 1]);
    }
  }

  lemma SameFirst(a: seq<Address>, b: seq<Address>)
    requires a != [] && b != [] && BreadthFirst(a) && BreadthFirst(b) && forall w :: w in a <==> w in b
    ensures a[0] == b[0]
  {
    assert a[0] in b && b[0] in a;
    if a[0] != b[0] {
      NotFirst(a, b[0]);
      NotFirst(b, a[0]);
      var i :| 0 <= i < |a[1..]| && a[1..][i] == b[0];
      var j :| 0 <= j < |b[1..]| && b[1..][j] == a[0];
      assert Before(a[0], a[i + 1]) && Before(b[0], b[j + 1]);
      BeforeIsStrict(a[0], b[0]);
    }
  }

  /** One iteration keeps the paths met in breadth-first order. */
  lemma BreadthFirstStep(done: seq<Address>, todo: seq<Address>, n: nat)
    requires todo != [] && Tree(done, done + todo) && BreadthFirst(done + todo)
    ensures BreadthFirst(done + todo + Children(todo[0], n))
  {
    var met, w, cs := done + todo, todo[0], Children(todo[0], n);
    forall i, j | 0 <= i < j < |met + cs| ensures Before((met + cs)[i], (met + cs)[j]) {
      if j < |met| {
        assert Before(met[i], met[j]);
      } else if i < |met| {
        MetBeforeChild(done, todo, met[i], j - |met|);
      } else {
        ChildBefore(w, w, i - |met|, j - |met|);
      }
    }
  }

  lemma MetBeforeChild(done: seq<Address>, todo: seq<Address>, v: Address, j: nat)
    requires todo != [] && Tree(done, done + todo) && BreadthFirst(done + todo) && v in done + todo
    ensures Before(v, todo[0] + [j])
  {
    if v != [] {
      assert Parent(v) in done;
      var i :| 0 <= i < |done| && done[i] == Parent(v);
      assert (done + todo)[i] == Parent(v) && (done + todo)[|done|] == todo[0];
      assert Before(Parent(v), todo[0]);
      ChildBefore(Parent(v), todo[0], v[|v| - 1], j);
      assert v == Parent(v) + [v[|v| - 1]];
    }
  }

  /** What is left of the queue comes after what has been found. */
  lemma FoundInOrder(done: seq<Address>, todo: seq<Address>, found: seq<Address>)
    requires todo != [] && BreadthFirst(done + todo) && BreadthFirst(found) && forall w | w in found :: w in done
    ensures BreadthFirst(found + [todo[0]])
  {
    forall i | 0 <= i < |found| ensures Before(found[i], todo[0]) {
      assert found[i] in done;
      var k :| 0 <= k < |done| && done[k] == found[i];
      assert (done + todo)[k] == found[i] && (done + todo)[|done|] == todo[0];
    }
  }

  // ---------------------------------------------------------------------------------------------
  // The worklist as an enumeration of dependency paths

  function Children(w: Address, n: nat): (cs: seq<Address>)
    ensures |cs| == n && forall j | 0 <= j < n :: cs[j] == w + [j]
  {
    seq(n, j requires 0 <= j < n => w + [j])
  }

  function Parent(w: Address): Address { if w == [] then [] else w[..|w| - 1] }

  /** `todo` are the dependency paths of the packages in the queue. */
  ghost predicate Leads(idx: Index, root: Package, todo: seq<Address>, queue: seq<Package>) {
    && |todo| == |queue|
    && (forall i | 0 <= i < |todo| :: Follow(idx, root, todo[i]) == Some(queue[i]))
  }

  /** `done` are the paths of the popped packages; a path is met once, and only after its parent is done. */
  ghost predicate Tree(done: seq<Address>, met: seq<Address>) {
    && Distinct(met)
    && [] in met
    && (forall w: Address {:trigger Parent(w)} | w != [] && w in met :: Parent(w) in done)
  }

  /** All children of the paths done have been met. */
  ghost predicate Closed(idx: Index, root: Package, done: seq<Address>, met: seq<Address>) {
    forall v: Address {:trigger Parent(v)} | v != [] && Parent(v) in done && Follow(idx, root, v).Some? :: v in met
  }

  ghost predicate Walk(idx: Index, root: Package, done: seq<Address>, todo: seq<Address>, queue: seq<Package>) {
    Leads(idx, root, todo, queue) && Tree(done, done + todo) && Closed(idx, root, done, done + todo)
  }

  lemma NotWalked(done: seq<Address>, todo: seq<Address>)
    requires todo != [] && Distinct(done + todo)
    ensures todo[0] !in done
  {
    forall i | 0 <= i < |done| ensures done[i] != todo[0] {
      assert (done + todo)[i] == done[i] && (done + todo)[|done|] == todo[0];
    }
  }

  lemma DistinctConcat<T>(a: seq<T>, b: seq<T>)
    requires Distinct(a) && Distinct(b) && forall x | x in b :: x !in a
    ensures Distinct(a + b)
  {
    forall i, j | 0 <= i < j < |a + b| ensures (a + b)[i] != (a + b)[j] {
      if i < |a| <= j { assert (a + b)[j] in b && (a + b)[i] in a; }
    }
  }

  lemma ChildrenOf(w: Address, n: nat)
    ensures var cs := Children(w, n);
            && Distinct(cs)
            && (forall c | c in cs :: c != [] && Parent(c) == w)
  {
    var cs := Children(w, n);
    forall j | 0 <= j < |cs| ensures Parent(cs[j]) == w && cs[j][|w|] == j {}
  }

  lemma ChildrenLead(idx: Index, root: Package, w: Address)
    requires LeadsToFound(idx, root, w)
    ensures var depends := idx[Follow(idx, root, w).value].depends; var cs := Children(w, |depends|);
            && (forall j | 0 <= j < |cs| :: Follow(idx, root, cs[j]) == Some(depends[j]))
            && (forall v: Address | v != [] && Parent(v) == w && Follow(idx, root, v).Some? :: v in cs)
  {
    var depends := idx[Follow(idx, root, w).value].depends;
    var cs := Children(w, |depends|);
    forall j | 0 <= j < |cs| ensures Follow(idx, root, cs[j]) == Some(depends[j]) {
      FollowChild(idx, root, w, j);
    }
    forall v: Address | v != [] && Parent(v) == w && Follow(idx, root, v).Some? ensures v in cs {
      var j := v[|w|];
      assert v == w + [j];
      FollowChild(idx, root, w, j);
      assert cs[j] == v;
    }
  }

  lemma FollowChild(idx: Index, root: Package, w: Address, j: nat)
    requires LeadsToFound(idx, root, w)
    ensures var depends := idx[Follow(idx, root, w).value].depends;
            Follow(idx, root, w + [j]) == if j < |depends| then Some(depends[j]) else None
  {
    assert (w + [j])[..|w|] == w;
  }

  lemma TreeStep(done: seq<Address>, met: seq<Address>, w: Address, cs: seq<Address>)
    requires Tree(done, met) && w !in done
    requires Distinct(cs) && forall c | c in cs :: c != [] && Parent(c) == w
    ensures Tree(done + [w], met + cs)
  {
    DistinctConcat(met, cs);
  }

  lemma ClosedStep(idx: Index, root: Package, done: seq<Address>, met: seq<Address>, w: Address, cs: seq<Address>)
    requires Closed(idx, root, done, met)
    requires forall v: Address | v != [] && Parent(v) == w && Follow(idx, root, v).Some? :: v in cs
    ensures Closed(idx, root, done + [w], met + cs)
  {
    forall v: Address | v != [] && Parent(v) in done + [w] && Follow(idx, root, v).Some? ensures v in met + cs {
      assert Parent(v) in done || Parent(v) == w;
    }
  }

  /** The paths of the dependencies of package p, which is at the end of path w. */
  function Pushed(idx: Index, w: Address, p: Package): seq<Address> {
    if p in idx then Children(w, |idx[p].depends|) else []
  }

  lemma PushedPaths(idx: Index, root: Package, w: Address, p: Package)
    requires Follow(idx, root, w) == Some(p)
    ensures var cs := Pushed(idx, w, p);
            && Distinct(cs)
            && (forall c | c in cs :: c != [] && Parent(c) == w)
            && Leads(idx, root, cs, if p in idx then idx[p].depends else [])
            && (forall v: Address | v != [] && Parent(v) == w && Follow(idx, root, v).Some? :: v in cs)
  {
    if p in idx {
      ChildrenOf(w, |idx[p].depends|);
      ChildrenLead(idx, root, w);
    }
  }

  lemma LeadsStep(idx: Index, root: Package, todo: seq<Address>, queue: seq<Package>,
                  cs: seq<Address>, ds: seq<Package>)
    requires Leads(idx, root, todo, queue) && queue != [] && Leads(idx, root, cs, ds)
    ensures Leads(idx, root, todo[1..] + cs, queue[1..] + ds)
  {
  }

  lemma MetStep(done: seq<Address>, todo: seq<Address>, cs: seq<Address>)
    requires todo != []
    ensures (done + [todo[0]]) + (todo[1..] + cs) == (done + todo) + cs
  {
  }

  lemma WalkStep(idx: Index, root: Package, done: seq<Address>, todo: seq<Address>, queue: seq<Package>)
    requires Walk(idx, root, done, todo, queue) && queue != []
    ensures var w := todo[0];
            Walk(idx, root, done + [w], todo[1..] + Pushed(idx, w, queue[0]), NextQueue(idx, queue))
  {
    var w := todo[0];
    var cs := Pushed(idx, w, queue[0]);
    MetStep(done, todo, cs);
    NotWalked(done, todo);
    PushedPaths(idx, root, w, queue[0]);
    LeadsStep(idx, root, todo, queue, cs, if queue[0] in idx then idx[queue[0]].depends else []);
    TreeStep(done, done + todo, w, cs);
    ClosedStep(idx, root, done, done + todo, w, cs);
  }

  /** When the queue is empty every dependency path has been walked. */
  lemma {:induction false} WalkComplete(idx: Index, root: Package, done: seq<Address>, w: Address)
    requires [] in done && Closed(idx, root, done, done) && Follow(idx, root, w).Some?
    ensures w in done
    decreases |w|
  {
    if w == [] {
    } else {
      WalkComplete(idx, root, done, Parent(w));
    }
  }

  /**
  The dependencies collected from the root: the list holds one entry for each dependency path to a
  found package, and every package comes before all of its dependencies' last entries.
  */
  ghost predicate Collected(idx: Index, root: Package, deps: seq<Package>, found: seq<Address>) {
    && |found| == |deps|
    && Distinct(found)
    && (forall i | 0 <= i < |deps| :: Follow(idx, root, found[i]) == Some(deps[i]) && deps[i] in idx)
    && (forall w: Address :: LeadsToFound(idx, root, w) ==> w in found)
  }

  /** In breadth-first order there is only one such list. */
  lemma CollectedIsUnique(idx: Index, root: Package, deps: seq<Package>, found: seq<Address>,
                          deps': seq<Package>, found': seq<Address>)
    requires Collected(idx, root, deps, found) && BreadthFirst(found)
    requires Collected(idx, root, deps', found') && BreadthFirst(found')
    ensures found == found' && deps == deps'
  {
    forall w ensures w in found <==> w in found' {
      FoundIff(idx, root, deps, found, w);
      FoundIff(idx, root, deps', found', w);
    }
    BreadthFirstIsUnique(found, found');
    forall i | 0 <= i < |deps| ensures deps[i] == deps'[i] {
      assert Follow(idx, root, found[i]) == Some(deps[i]) && Follow(idx, root, found'[i]) == Some(deps'[i]);
    }
  }

  lemma FoundIff(idx: Index, root: Package, deps: seq<Package>, found: seq<Address>, w: Address)
    requires Collected(idx, root, deps, found)
    ensures w in found <==> LeadsToFound(idx, root, w)
  {
    if w in found {
      var i :| 0 <= i < |found| && found[i] == w;
      assert Follow(idx, root, found[i]) == Some(deps[i]);
    }
  }

  ghost predicate DependenciesFollow(idx: Index, deps: seq<Package>, queue: seq<Package>) {
    forall i, d | 0 <= i < |deps| && deps[i] in idx && d in idx[deps[i]].depends && d in idx ::
      d in deps[i + 1..] || d in queue
  }

  lemma DependenciesFollowStep(idx: Index, deps: seq<Package>, queue: seq<Package>)
    requires DependenciesFollow(idx, deps, queue) && queue != []
    ensures DependenciesFollow(idx, if queue[0] in idx then deps + [queue[0]] else deps, NextQueue(idx, queue))
  {
    var p := queue[0];
    var deps' := if p in idx then deps + [p] else deps;
    forall i, d | 0 <= i < |deps'| && deps'[i] in idx && d in idx[deps'[i]].depends && d in idx
      ensures d in deps'[i + 1..] || d in NextQueue(idx, queue)
    {
      if i < |deps| {
        assert p in idx ==> deps'[i + 1..] == deps[i + 1..] + [p];
        assert deps'[i] == deps[i];
      }
    }
  }

  /** The search paths of the collected packages, in the same order. */
  function SearchPaths(idx: Index, deps: seq<Package>): (paths: seq<string>)
    requires forall p | p in deps :: p in idx
    ensures |paths| == |deps| && forall i | 0 <= i < |deps| :: paths[i] == idx[deps[i]].searchPath
  {
    seq(|deps|, i requires 0 <= i < |deps| => assert deps[i] in deps; idx[deps[i]].searchPath)
  }

  /** What has been collected from the paths walked so far. */
  ghost predicate CollectedSoFar(idx: Index, root: Package, done: seq<Address>,
                                 deps: seq<Package>, found: seq<Address>, missing: set<Package>) {
    && |found| == |deps| && Distinct(found)
    && (forall i | 0 <= i < |deps| :: Follow(idx, root, found[i]) == Some(deps[i]) && deps[i] in idx)
    && (forall w :: w in found <==> w in done && LeadsToFound(idx, root, w))
    && (forall p | p in missing :: p !in idx && Reachable(idx, root, p))
    && (forall w | w in done && Follow(idx, root, w).Some? && Follow(idx, root, w).value !in idx ::
          Follow(idx, root, w).value in missing)
  }

  lemma CollectedStep(idx: Index, root: Package, done: seq<Address>, w: Address, p: Package,
                      deps: seq<Package>, found: seq<Address>, missing: set<Package>)
    requires CollectedSoFar(idx, root, done, deps, found, missing)
    requires w !in done && Follow(idx, root, w) == Some(p)
    ensures p in idx ==> CollectedSoFar(idx, root, done + [w], deps + [p], found + [w], missing)
    ensures p !in idx ==> CollectedSoFar(idx, root, done + [w], deps, found, missing + {p})
  {
    DistinctConcat(found, [w]);
  }

  lemma SearchPathsAppend(idx: Index, deps: seq<Package>, p: Package)
    requires p in idx && forall d | d in deps :: d in idx
    ensures forall d | d in deps + [p] :: d in idx
    ensures SearchPaths(idx, deps + [p]) == SearchPaths(idx, deps) + [idx[p].searchPath]
  {
  }

  /** One iteration of the worklist loop. */
  lemma LoopStep(idx: Index, root: Package, done: seq<Address>, todo: seq<Address>, queue: seq<Package>,
                 deps: seq<Package>, found: seq<Address>, missing: set<Package>)
    requires Walk(idx, root, done, todo, queue) && queue != []
    requires CollectedSoFar(idx, root, done, deps, found, missing)
    requires DependenciesFollow(idx, deps, queue) && AllBounded(idx, queue, |idx|)
    ensures var w, p, queue' := todo[0], queue[0], NextQueue(idx, queue);
            && Walk(idx, root, done + [w], todo[1..] + Pushed(idx, w, p), queue')
            && (p in idx ==> CollectedSoFar(idx, root, done + [w], deps + [p], found + [w], missing))
            && (p !in idx ==> CollectedSoFar(idx, root, done + [w], deps, found, missing + {p}))
            && (p !in idx ==> queue' == queue[1..] && Walk(idx, root, done + [w], todo[1..], queue'))
            && DependenciesFollow(idx, if p in idx then deps + [p] else deps, queue')
            && AllBounded(idx, queue', |idx|)
            && TotalWeight(idx, queue', |idx|) == TotalWeight(idx, queue, |idx|) - 1
  {
    WalkStep(idx, root, done, todo, queue);
    IterationDropsWeight(idx, queue, |idx|);
    DependenciesFollowStep(idx, deps, queue);
    NotWalked(done, todo);
    CollectedStep(idx, root, done, todo[0], queue[0], deps, found, missing);
    assert todo[1..] + [] == todo[1..] && queue[1..] + [] == queue[1..];
  }

  lemma OrderStep(idx: Index, root: Package, done: seq<Address>, todo: seq<Address>, queue: seq<Package>,
                  found: seq<Address>, p: Package)
    requires Walk(idx, root, done, todo, queue) && queue != []
    requires BreadthFirst(done + todo) && BreadthFirst(found) && forall w | w in found :: w in done
    ensures BreadthFirst(done + [todo[0]] + (todo[1..] + Pushed(idx, todo[0], p)))
    ensures BreadthFirst(done + [todo[0]] + todo[1..])
    ensures BreadthFirst(found + [todo[0]])
  {
    assert todo == [todo[0]] + todo[1..];
    assert done + [todo[0]] + todo[1..] == done + todo;
    var cs := Pushed(idx, todo[0], p);
    BreadthFirstStep(done, todo, |cs|);
    assert done + [todo[0]] + (todo[1..] + cs) == done + todo + cs;
    if cs == [] { assert done + todo + cs == done + todo; } else { assert cs == Children(todo[0], |cs|); }
    FoundInOrder(done, todo, found);
  }

  lemma AllWalked(idx: Index, root: Package, done: seq<Address>)
    requires Walk(idx, root, done, [], [])
    ensures forall w: Address | Follow(idx, root, w).Some? :: w in done
  {
    assert done + [] == done;
    forall w: Address | Follow(idx, root, w).Some? ensures w in done {
      WalkComplete(idx, root, done, w);
    }
  }

  lemma CollectedAll(idx: Index, root: Package, done: seq<Address>,
                     deps: seq<Package>, found: seq<Address>, missing: set<Package>)
    requires forall w: Address | Follow(idx, root, w).Some? :: w in done
    requires CollectedSoFar(idx, root, done, deps, found, missing)
    ensures Collected(idx, root, deps, found)
    ensures forall p :: p in missing <==> Reachable(idx, root, p) && p !in idx
  {
    forall p | Reachable(idx, root, p) && p !in idx ensures p in missing {
      var w: Address :| Follow(idx, root, w) == Some(p);
      assert w in done;
    }
  }

  /** The worklist loop. Without it being acyclic the loop does not end (TerminatesIffNoCycle). */
  method Collect(idx: Index, root: Package)
    returns (deps: seq<Package>, searchPaths: seq<string>, missing: set<Package>,
             ghost found: seq<Address>, ghost steps: nat)
    requires NoCycle(idx, root)
    ensures Collected(idx, root, deps, found) && BreadthFirst(found)
    ensures DependenciesFollow(idx, deps, [])
    ensures (forall p | p in deps :: p in idx) && searchPaths == SearchPaths(idx, deps)
    ensures forall p :: p in missing <==> Reachable(idx, root, p) && p !in idx
    ensures Bounded(idx, root, |idx|) && steps == Weight(idx, root, |idx|)
  {
    deps, searchPaths, missing := [], [], {};
    var queue := [root];
    ghost var done: seq<Address>, todo: seq<Address> := [], [[]];
    found, steps := [], 0;
    NoCycleIsBounded(idx, root, []);
    while queue != []
      invariant Walk(idx, root, done, todo, queue)
      invariant CollectedSoFar(idx, root, done, deps, found, missing)
      invariant BreadthFirst(done + todo) && BreadthFirst(found)
      invariant DependenciesFollow(idx, deps, queue)
      invariant (forall p | p in deps :: p in idx) && searchPaths == SearchPaths(idx, deps)
      invariant AllBounded(idx, queue, |idx|)
      invariant steps + TotalWeight(idx, queue, |idx|) == Weight(idx, root, |idx|)
      decreases TotalWeight(idx, queue, |idx|)
    {
      var name := queue[0];
      LoopStep(idx, root, done, todo, queue, deps, found, missing);
      OrderStep(idx, root, done, todo, queue, found, name);
      done := done + [todo[0]];
      if name in idx {
        SearchPathsAppend(idx, deps, name);
        deps := deps + [name];
        searchPaths := searchPaths + [idx[name].searchPath];
        found := found + [todo[0]];
        queue := queue[1..] + idx[name].depends;
        todo := todo[1..] + Pushed(idx, todo[0], name);
      } else {
        missing := missing + {name};
        queue := queue[1..];
        todo := todo[1..];
      }
      steps := steps + 1;
    }
    AllWalked(idx, root, done);
    CollectedAll(idx, root, done, deps, found, missing);
  }

  /** The collected packages are exactly the found ones that are reachable through found packages. */
  lemma CollectedAreReachable(idx: Index, root: Package, deps: seq<Package>, found: seq<Address>, p: Package)
    requires Collected(idx, root, deps, found)
    ensures p in deps <==> p in idx && Reachable(idx, root, p)
  {
    if p in idx && Reachable(idx, root, p) {
      var w: Address :| Follow(idx, root, w) == Some(p);
      assert LeadsToFound(idx, root, w);
      var i :| 0 <= i < |found| && found[i] == w;
      assert deps[i] == p;
    }
  }

  /**
  The reverse pass is topological although the list holds duplicates: a dependency d of p has an entry
  after every entry of p, so that the reverse pass meets d before it meets p for the first time.
  */
  lemma ReverseIsTopological(idx: Index, deps: seq<Package>, p: Package, d: Package)
    requires DependenciesFollow(idx, deps, [])
    requires p in deps && p in idx && d in idx[p].depends && d in idx
    ensures exists k :: 0 <= k < |deps| && deps[k] == d && p !in deps[k..]
  {
    var i := LastEntry(deps, p);
    assert d in deps[i + 1..];
    var j :| 0 <= j < |deps[i + 1..]| && deps[i + 1..][j] == d;
    var k := i + 1 + j;
    assert deps[k..] == deps[i + 1..][j..];
    assert deps[k] == d;
  }

  lemma {:induction false} LastEntry(deps: seq<Package>, p: Package) returns (i: nat)
    requires p in deps
    ensures i < |deps| && deps[i] == p && p !in deps[i + 1..]
    decreases |deps|
  {
    if deps[|deps| - 1] == p {
      i := |deps| - 1;
    } else {
      var shorter := deps[..|deps| - 1];
      i := LastEntry(shorter, p);
      assert deps[i + 1..] == shorter[i + 1..] + [deps[|deps| - 1]];
    }
  }

  // ---------------------------------------------------------------------------------------------
  // Importing

  /** A call of ComponentLoader::import: its arguments, its result and what was imported before it. */
  datatype Attempt = Attempt(package: Package, pathList: string, ok: bool, before: set<Package>)

  /** An imported package stays imported. */
  ghost predicate Recorded(attempts: seq<Attempt>, imported: set<Package>) {
    && (forall i, j | 0 <= i < j < |attempts| && attempts[i].ok :: attempts[i].package in attempts[j].before)
    && (forall i | 0 <= i < |attempts| && attempts[i].ok :: attempts[i].package in imported)
    && (forall i | 0 <= i < |attempts| :: attempts[i].before <= imported)
  }

  /** No package is tried again after it was imported successfully. */
  ghost predicate OnceEach(attempts: seq<Attempt>) {
    forall i, j | 0 <= i < j < |attempts| && attempts[i].ok :: attempts[j].package != attempts[i].package
  }

  /**
  The component loader of RTT. Nothing is assumed about which imports succeed, nor about what else
  an import makes available, except that a successfully imported package counts as imported.
  */
  class ComponentLoader {
    var imported: set<Package>
    var attempts: seq<Attempt>
    const componentPath: string
    const outcome: nat -> bool
    const extra: nat -> set<Package>

    ghost predicate Valid()
      reads this
    {
      Recorded(attempts, imported)
    }

    constructor (componentPath: string, outcome: nat -> bool, extra: nat -> set<Package>)
      ensures Valid() && imported == {} && attempts == []
    {
      this.componentPath, this.outcome, this.extra := componentPath, outcome, extra;
      imported, attempts := {}, [];
    }

    method Import(package: Package, pathList: string) returns (ok: bool)
      requires Valid()
      modifies this
      ensures Valid()
      ensures attempts == old(attempts) + [Attempt(package, pathList, ok, old(imported))]
      ensures old(imported) <= imported && (ok ==> package in imported)
    {
      ok := outcome(|attempts|);
      var more := extra(|attempts|);
      attempts := attempts + [Attempt(package, pathList, ok, imported)];
      imported := imported + more + if ok then {package} else {};
    }
  }

  const THIS_PACKAGE: Package := "rtt_ros2"

  /** No import of p is pending: it is built in, or available, or its import has failed. */
  ghost predicate Settled(p: Package, imported: set<Package>, attempts: seq<Attempt>) {
    || p == THIS_PACKAGE || p in imported
    || exists k :: 0 <= k < |attempts| && attempts[k].package == p && !attempts[k].ok
  }

  /** What a sequence of import attempts promises, whatever the loader answered. */
  ghost predicate GoodAttempts(idx: Index, attempts: seq<Attempt>) {
    // every attempt is for a package that was not imported before and comes after its dependencies
    && (forall i | 0 <= i < |attempts| ::
          attempts[i].package !in attempts[i].before && attempts[i].package != THIS_PACKAGE)
    && (forall i, d | 0 <= i < |attempts| && attempts[i].package in idx &&
                      d in idx[attempts[i].package].depends && d in idx ::
          Settled(d, attempts[i].before, attempts[..i]))
  }

  /** The calls of one import keep that no package is imported again after it was imported successfully. */
  lemma ImportedAtMostOnce(earlier: seq<Attempt>, idx: Index, tried: seq<Attempt>, imported: set<Package>)
    requires Recorded(earlier + tried, imported) && OnceEach(earlier) && GoodAttempts(idx, tried)
    ensures OnceEach(earlier + tried)
  {
    var all := earlier + tried;
    forall i, j | 0 <= i < j < |all| && all[i].ok ensures all[j].package != all[i].package {
      if j < |earlier| {
        assert earlier[i] == all[i] && earlier[j] == all[j];
      } else {
        assert all[j] == tried[j - |earlier|];
      }
    }
  }

  lemma OneMoreAttempt(idx: Index, attempts: seq<Attempt>, a: Attempt,
                       imported: set<Package>, imported': set<Package>)
    requires GoodAttempts(idx, attempts)
    requires a.before == imported && imported <= imported' && (a.ok ==> a.package in imported')
    requires a.package !in imported && a.package != THIS_PACKAGE
    requires a.package in idx && forall d | d in idx[a.package].depends && d in idx :: Settled(d, imported, attempts)
    ensures GoodAttempts(idx, attempts + [a])
    ensures forall p | Settled(p, imported, attempts) :: Settled(p, imported', attempts + [a])
    ensures Settled(a.package, imported', attempts + [a])
  {
    var all := attempts + [a];
    forall i, d | 0 <= i < |all| && all[i].package in idx && d in idx[all[i].package].depends && d in idx
      ensures Settled(d, all[i].before, all[..i])
    {
      if i < |attempts| { assert all[..i] == attempts[..i] && all[i] == attempts[i]; }
      else { assert all[..i] == attempts; }
    }
    forall p | Settled(p, imported, attempts) ensures Settled(p, imported', all) {
      if p != THIS_PACKAGE && p !in imported {
        var k :| 0 <= k < |attempts| && attempts[k].package == p && !attempts[k].ok;
        assert all[k] == attempts[k];
      }
    }
    assert all[|attempts|] == a;
  }

  lemma DependenciesAfter(idx: Index, deps: seq<Package>, i: nat)
    requires DependenciesFollow(idx, deps, []) && i < |deps| && deps[i] in idx
    ensures forall d | d in idx[deps[i]].depends && d in idx :: d in deps[i + 1..]
  {
    forall d | d in idx[deps[i]].depends && d in idx ensures d in deps[i + 1..] {
      assert deps[i] in idx && d in idx[deps[i]].depends;
    }
  }

  /** What happens to one entry of the list: the packages imported at that moment, and the attempt, if any. */
  datatype Look = Look(package: Package, imported: set<Package>, attempt: Option<Attempt>)

  function AttemptsOf(looks: seq<Look>): seq<Attempt> {
    if looks == [] then [] else
      var last := looks[|looks| - 1];
      AttemptsOf(looks[..|looks| - 1]) + if last.attempt.Some? then [last.attempt.value] else []
  }

  /**
  The reverse pass over the last entries of the list, one look at each. An entry causes one attempt iff
  its package is not rtt_ros2 and not imported at that moment, whatever happened to earlier entries of
  the same package, and only attempts change what is imported.
  */
  predicate ReversePass(deps: seq<Package>, start: set<Package>, looks: seq<Look>, imported: set<Package>)
    decreases |looks|
  {
    if looks == [] then imported == start
    else
      var last := looks[|looks| - 1];
      && |looks| <= |deps| && last.package == deps[|deps| - |looks|] && GoodLook(last, imported)
      && ReversePass(deps, start, looks[..|looks| - 1], last.imported)
  }

  /** The look causes an attempt or not, as it should; imported are the packages imported after it. */
  predicate GoodLook(look: Look, imported: set<Package>) {
    match look.attempt
    case None => (look.package == THIS_PACKAGE || look.package in look.imported) && imported == look.imported
    case Some(a) =>
      && look.package != THIS_PACKAGE && look.package !in look.imported
      && a.package == look.package && a.before == look.imported
      && look.imported <= imported && (a.ok ==> a.package in imported)
  }

  lemma OneMoreLook(deps: seq<Package>, start: set<Package>, looks: seq<Look>, look: Look, imported: set<Package>)
    requires ReversePass(deps, start, looks, look.imported) && |looks| < |deps|
    requires look.package == deps[|deps| - 1 - |looks|] && GoodLook(look, imported)
    ensures ReversePass(deps, start, looks + [look], imported)
    ensures AttemptsOf(looks + [look]) ==
            AttemptsOf(looks) + if look.attempt.Some? then [look.attempt.value] else []
  {
    assert (looks + [look])[..|looks|] == looks;
  }

  /** Look k is at the k-th last entry, with what was imported by then; it causes an attempt iff it should. */
  lemma {:induction false} EachEntryOnce(deps: seq<Package>, start: set<Package>, looks: seq<Look>,
                                         imported: set<Package>, k: nat)
    requires ReversePass(deps, start, looks, imported) && k < |looks|
    ensures |looks| <= |deps| && looks[k].package == deps[|deps| - 1 - k]
    ensures looks[k].attempt.Some? <==> looks[k].package != "rtt_ros2" && looks[k].package !in looks[k].imported
    ensures k == 0 ==> looks[k].imported == start
    ensures GoodLook(looks[k], if k + 1 < |looks| then looks[k + 1].imported else imported)
    decreases |looks|
  {
    var earlier := looks[..|looks| - 1];
    if k + 1 == |looks| {
      if k == 0 { assert earlier == []; }
    } else {
      EachEntryOnce(deps, start, earlier, looks[|looks| - 1].imported, k);
    }
  }

  /** The reverse loop over the collected packages. */
  method ImportAll(idx: Index, deps: seq<Package>, pathList: string, loader: ComponentLoader, missing: set<Package>)
    returns (missing': set<Package>, ghost tried: seq<Attempt>, ghost looks: seq<Look>)
    requires loader.Valid() && DependenciesFollow(idx, deps, []) && forall p | p in deps :: p in idx
    modifies loader
    ensures loader.Valid() && loader.attempts == old(loader.attempts) + tried
    ensures |looks| == |deps| && ReversePass(deps, old(loader.imported), looks, loader.imported)
    ensures tried == AttemptsOf(looks)
    ensures GoodAttempts(idx, tried)
    ensures forall a | a in tried :: a.package in deps && a.pathList == pathList
    ensures forall p | p in deps :: Settled(p, loader.imported, tried)
    ensures forall p :: p in missing' <==> p in missing || exists a :: a in tried && a.package == p && !a.ok
  {
    missing' := missing;
    tried, looks := [], [];
    assert loader.attempts == old(loader.attempts) + tried;
    var i := |deps|;
    while i > 0
      invariant 0 <= i <= |deps|
      invariant loader.Valid() && loader.attempts == old(loader.attempts) + tried
      invariant |looks| == |deps| - i && ReversePass(deps, old(loader.imported), looks, loader.imported)
      invariant tried == AttemptsOf(looks)
      invariant GoodAttempts(idx, tried)
      invariant forall a | a in tried :: a.package in deps && a.pathList == pathList
      invariant forall p | p in deps[i..] :: Settled(p, loader.imported, tried)
      invariant forall p :: p in missing' <==> p in missing || exists a :: a in tried && a.package == p && !a.ok
    {
      i := i - 1;
      assert deps[i..] == [deps[i]] + deps[i + 1..];
      ghost var look := Look(deps[i], loader.imported, None);
      if deps[i] != THIS_PACKAGE && deps[i] !in loader.imported {
        ghost var before := loader.imported;
        DependenciesAfter(idx, deps, i);
        var ok := loader.Import(deps[i], pathList);
        ghost var a := Attempt(deps[i], pathList, ok, before);
        OneMoreAttempt(idx, tried, a, before, loader.imported);
        if !ok { missing' := missing' + {deps[i]}; }
        tried := tried + [a];
        assert a in tried;
        look := look.(attempt := Some(a));
      }
      OneMoreLook(deps, old(loader.imported), looks, look, loader.imported);
      looks := looks + [look];
    }
    assert deps[0..] == deps;
  }

  /** The search path for the collected packages. */
  function PathListOf(idx: Index, deps: seq<Package>, componentPath: string): string
    requires forall p | p in deps :: p in idx
  {
    Prepend(KeepLast(SearchPaths(idx, deps)), componentPath)
  }

  /**
  rtt_ros2::import. It returns true exactly if no reachable package is missing and every import
  attempt succeeded, and then every reachable package is imported. However often it is called with one
  loader, no package is tried again after it was imported successfully.
  */
  method Import(idx: Index, package: Package, loader: ComponentLoader)
    returns (success: bool, ghost tried: seq<Attempt>, ghost looks: seq<Look>,
             ghost deps: seq<Package>, ghost found: seq<Address>)
    requires loader.Valid() && NoCycle(idx, package)
    modifies loader
    ensures loader.Valid() && (OnceEach(old(loader.attempts)) ==> OnceEach(loader.attempts))
    ensures Collected(idx, package, deps, found) && BreadthFirst(found) && (forall p | p in deps :: p in idx)
    ensures |looks| == |deps| && ReversePass(deps, old(loader.imported), looks, loader.imported)
    ensures tried == AttemptsOf(looks)
    ensures forall a | a in tried :: a.pathList == PathListOf(idx, deps, loader.componentPath)
    ensures var paths, path := SearchPaths(idx, deps), loader.componentPath;
            NoColons(paths) <==> Split(PathListOf(idx, deps, path)) == KeepLast(paths) + Split(path)
    ensures loader.attempts == old(loader.attempts) + tried
    ensures GoodAttempts(idx, tried)
    ensures forall a | a in tried :: a.package in idx && Reachable(idx, package, a.package)
    ensures success <==> (forall p | Reachable(idx, package, p) :: p in idx) && (forall a | a in tried :: a.ok)
    ensures success ==> forall p | Reachable(idx, package, p) :: p == THIS_PACKAGE || p in loader.imported
  {
    var list, searchPaths, missing;
    ghost var steps;
    list, searchPaths, missing, found, steps := Collect(idx, package);
    deps, tried, looks := list, [], [];
    forall p ensures p in deps <==> p in idx && Reachable(idx, package, p) {
      CollectedAreReachable(idx, package, deps, found, p);
    }
    if list != [] {
      var pathList := BuildPathList(searchPaths, loader.componentPath);
      missing, tried, looks := ImportAll(idx, list, pathList, loader, missing);
    }
    if OnceEach(old(loader.attempts)) {
      ImportedAtMostOnce(old(loader.attempts), idx, tried, loader.imported);
    }
    PathListIsSplit(SearchPaths(idx, deps), loader.componentPath);
    success := |missing| == 0;
    ghost var all := missing;
    assert success <==> forall p :: p !in all;
  }
}
