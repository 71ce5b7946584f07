/**
 The depth estimate of the graph. The search marks nodes as visited on the first arrival, so it
 is not the longest path in general; this module proves what it is and when it is the longest path.
 */
module Depth {
  import opened Bytes
  import opened Types
  import opened Graph

  /** The deepest point the search reaches from `cur`, and the visited set it leaves. */
  function DepthFrom(E: Edges, cur: Hash, visited: set<Hash>, depth: nat): (r: (nat, set<Hash>))
    ensures visited <= r.1 && depth <= r.0
    decreases E.Keys - visited, 0, 0
  {
    if cur in visited || Parents(E, cur) == [] then
      (depth, visited)
    else
      assert cur in E.Keys - visited;
      DepthAmong(E, Parents(E, cur), visited + {cur}, depth, depth)
  }

  /** The loop over the parents of a node at `depth`, with the running maximum `best`. */
  function DepthAmong(E: Edges, parents: seq<Hash>, visited: set<Hash>, depth: nat, best: nat): (r: (nat, set<Hash>))
    ensures visited <= r.1 && best <= r.0
    decreases E.Keys - visited, 1, |parents|
  {
    if parents == [] then
      (best, visited)
    else
      var (d, seen) := DepthFrom(E, parents[0], visited, depth + 1);
      DepthAmong(E, parents[1..], seen, depth, if d > best then d else best)
  }

  /** The estimate is the length of a real path from `cur`. */
  lemma {:induction false} DepthIsWalk(E: Edges, cur: Hash, visited: set<Hash>, depth: nat) returns (end: Hash)
    ensures Walk(E, cur, end, DepthFrom(E, cur, visited, depth).0 - depth)
    decreases E.Keys - visited, 0, 0
  {
    end := cur;
    if cur !in visited && Parents(E, cur) != [] {
      assert cur in E.Keys - visited;
      var r := DepthFrom(E, cur, visited, depth).0;
      if r > depth {
        var p;
        p, end := DepthAmongIsWalk(E, Parents(E, cur), visited + {cur}, depth, depth);
        assert HasEdge(E, cur, p);
      }
    }
  }

  lemma {:induction false} DepthAmongIsWalk(E: Edges, parents: seq<Hash>, visited: set<Hash>, depth: nat, best: nat)
    returns (p: Hash, end: Hash)
    requires DepthAmong(E, parents, visited, depth, best).0 > best >= depth
    ensures p in parents && Walk(E, p, end, DepthAmong(E, parents, visited, depth, best).0 - depth - 1)
    decreases E.Keys - visited, 1, |parents|
  {
    var (d, seen) := DepthFrom(E, parents[0], visited, depth + 1);
    var best' := if d > best then d else best;
    if DepthAmong(E, parents[1..], seen, depth, best').0 > best' {
      p, end := DepthAmongIsWalk(E, parents[1..], seen, depth, best');
    } else {
      p := parents[0];
      end := DepthIsWalk(E, p, visited, depth + 1);
    }
  }

  /** `h` was met by the search from `root`: some walk to it is within `bound`, and its parents are one further. */
  ghost predicate MetWithin(E: Edges, root: Hash, h: Hash, bound: nat) {
    exists m: nat :: Walk(E, root, h, m) && m + (if Parents(E, h) == [] then 0 else 1) <= bound
  }

  ghost predicate AllMet(E: Edges, root: Hash, hs: set<Hash>, bound: nat) {
    forall h :: h in hs ==> MetWithin(E, root, h, bound)
  }

  /** The nodes of `done` have all their parents in `seen`, or without parents and met within the bound. */
  ghost predicate Swept(E: Edges, done: set<Hash>, seen: set<Hash>) {
    forall v, p :: v in done && HasEdge(E, v, p) ==> p in seen || Parents(E, p) == []
  }

  lemma MetMonotone(E: Edges, root: Hash, hs: set<Hash>, b: nat, c: nat)
    requires AllMet(E, root, hs, b) && b <= c
    ensures AllMet(E, root, hs, c)
  {
    forall h | h in hs ensures MetWithin(E, root, h, c) {
      assert MetWithin(E, root, h, b);
    }
  }

  /** Everything newly visited from `cur`, at walk distance `depth` from `root`, is met within the estimate. */
  lemma {:induction false} DepthSweeps(E: Edges, root: Hash, cur: Hash, visited: set<Hash>, depth: nat)
    requires Walk(E, root, cur, depth)
    ensures var (r, seen) := DepthFrom(E, cur, visited, depth);
            && AllMet(E, root, seen - visited, r)
            && Swept(E, seen - visited, seen)
            && (cur in seen || Parents(E, cur) == [])
    decreases E.Keys - visited, 0, 0
  {
    if cur !in visited && Parents(E, cur) != [] {
      assert cur in E.Keys - visited;
      var V := visited + {cur};
      var (r, seen) := DepthFrom(E, cur, visited, depth);
      DepthAmongSweeps(E, root, cur, Parents(E, cur), V, depth, depth);
      assert MetWithin(E, root, cur, r);
      forall h | h in seen - visited ensures MetWithin(E, root, h, r) {
        assert h == cur || h in seen - V;
      }
    }
  }

  lemma {:induction false} DepthAmongSweeps(
      E: Edges, root: Hash, cur: Hash, parents: seq<Hash>, visited: set<Hash>, depth: nat, best: nat)
    requires Walk(E, root, cur, depth) && best >= depth
    requires forall p :: p in parents ==> HasEdge(E, cur, p)
    ensures var (r, seen) := DepthAmong(E, parents, visited, depth, best);
            && AllMet(E, root, seen - visited, r)
            && Swept(E, seen - visited, seen)
            && (forall p :: p in parents ==> p in seen || Parents(E, p) == [])
            && (parents != [] ==> depth + 1 <= r)
    decreases E.Keys - visited, 1, |parents|
  {
    if parents != [] {
      var p := parents[0];
      EdgeReaches(E, cur, p);
      WalkJoin(E, root, cur, p, depth, 1);
      var (d, mid) := DepthFrom(E, p, visited, depth + 1);
      var best' := if d > best then d else best;
      var (r, seen) := DepthAmong(E, parents[1..], mid, depth, best');
      DepthSweeps(E, root, p, visited, depth + 1);
      DepthAmongSweeps(E, root, cur, parents[1..], mid, depth, best');
      MetMonotone(E, root, mid - visited, d, r);
      assert parents == [p] + parents[1..];
      forall h | h in seen - visited ensures MetWithin(E, root, h, r) {
        assert h in mid - visited || h in seen - mid;
      }
      forall v, q | v in seen - visited && HasEdge(E, v, q) ensures q in seen || Parents(E, q) == [] {
        assert v in mid - visited || v in seen - mid;
      }
    }
  }

  lemma {:induction false} SweptReaches(E: Edges, seen: set<Hash>, a: Hash, b: Hash, n: nat)
    requires Swept(E, seen, seen) && (a in seen || Parents(E, a) == []) && Walk(E, a, b, n)
    ensures b in seen || Parents(E, b) == []
    decreases n
  {
    if n > 0 {
      var c :| HasEdge(E, a, c) && Walk(E, c, b, n - 1);
      SweptReaches(E, seen, c, b, n - 1);
    }
  }

  /** What `Depth` returns: the largest estimate over all starting keys, 0 for an empty graph. */
  ghost predicate IsDepth(E: Edges, d: nat) {
    && (forall k :: k in E ==> DepthFrom(E, k, {}, 0).0 <= d)
    && (d == 0 || exists k :: k in E && DepthFrom(E, k, {}, 0).0 == d)
  }

  /** `d` is the length of a longest path. */
  ghost predicate IsLongest(E: Edges, d: nat) {
    && (exists a, b :: Walk(E, a, b, d))
    && (forall a, b, n: nat :: Walk(E, a, b, n) ==> n <= d)
  }

  /** The depth is the length of a real path, so never more than the longest one. */
  lemma DepthAttained(E: Edges, d: nat) returns (a: Hash, b: Hash)
    requires IsDepth(E, d)
    ensures Walk(E, a, b, d)
  {
    if d == 0 {
      a := seq(32, _ => 0);
      b := a;
    } else {
      a :| a in E && DepthFrom(E, a, {}, 0).0 == d;
      b := DepthIsWalk(E, a, {}, 0);
    }
  }

  /** The depth is at least the distance between any two connected nodes: some walk between them is that short. */
  lemma DepthCoversDistances(E: Edges, d: nat, a: Hash, b: Hash) returns (m: nat)
    requires IsDepth(E, d) && ReachesOrEqual(E, a, b)
    ensures Walk(E, a, b, m) && m <= d
  {
    var n: nat :| Walk(E, a, b, n);
    if n == 0 {
      m := 0;
    } else {
      var z := WalkLast(E, a, b, n);
      m := DepthFromCovers(E, a, z, n - 1);
      EdgeReaches(E, z, b);
      WalkJoin(E, a, z, b, m, 1);
      m := m + 1;
      StartIsKey(E, a, z, n - 1);
    }
  }

  lemma StartIsKey(E: Edges, a: Hash, z: Hash, n: nat)
    requires Walk(E, a, z, n) && Parents(E, z) != []
    ensures a in E
  {
  }

  /** A node with parents that is reachable from `a` is met at some distance below the estimate for `a`. */
  lemma DepthFromCovers(E: Edges, a: Hash, z: Hash, n: nat) returns (m: nat)
    requires Walk(E, a, z, n) && Parents(E, z) != []
    ensures Walk(E, a, z, m) && m + 1 <= DepthFrom(E, a, {}, 0).0
  {
    var (r, seen) := DepthFrom(E, a, {}, 0);
    DepthSweeps(E, a, a, {}, 0);
    assert seen - {} == seen;
    SweptReaches(E, seen, a, z, n);
    assert MetWithin(E, a, z, r);
    m :| Walk(E, a, z, m) && m + 1 <= r;
  }

  /** All walks between two nodes, the second with parents, have the same length. */
  ghost predicate Graded(E: Edges) {
    forall a, z, m: nat, n: nat :: Parents(E, z) != [] && Walk(E, a, z, m) && Walk(E, a, z, n) ==> m == n
  }

  /** A walk counts in full if all walks to its last node with parents are equally long. */
  lemma GradedWalkCounts(E: Edges, d: nat, a: Hash, z: Hash, n: nat)
    requires IsDepth(E, d) && Walk(E, a, z, n) && Parents(E, z) != []
    requires forall m: nat :: Walk(E, a, z, m) ==> m == n
    ensures n + 1 <= d
  {
    var m := DepthFromCovers(E, a, z, n);
    StartIsKey(E, a, z, n);
  }

  /**
   One longest path is enough: if all walks from its start to its last node with parents are equally
   long, the depth is its length. What the rest of the graph looks like does not matter.
   */
  lemma DepthLongestWhenOneGraded(E: Edges, d: nat, a: Hash, z: Hash, n: nat)
    requires IsDepth(E, d) && IsLongest(E, n + 1) && Walk(E, a, z, n) && Parents(E, z) != []
    requires forall m: nat :: Walk(E, a, z, m) ==> m == n
    ensures d == n + 1
  {
    var a0, b0 := DepthAttained(E, d);
    GradedWalkCounts(E, d, a, z, n);
  }

  /** On graded graphs, the order of visits does not matter and the depth is the longest path. */
  lemma DepthLongestWhenGraded(E: Edges, d: nat)
    requires IsDepth(E, d) && Graded(E)
    ensures IsLongest(E, d)
  {
    var a0, b0 := DepthAttained(E, d);
    forall a, b, n: nat | Walk(E, a, b, n) ensures n <= d {
      if n > 0 {
        var z := WalkLast(E, a, b, n);
        GradedWalkCounts(E, d, a, z, n - 1);
      }
    }
  }

  /** Acyclic graphs in which every transaction names at most one parent are graded. */
  lemma SingleParentGraded(E: Edges)
    requires Acyclic(E) && forall h :: |Parents(E, h)| <= 1
    ensures Graded(E)
  {
    forall a, z, m: nat, n: nat | Parents(E, z) != [] && Walk(E, a, z, m) && Walk(E, a, z, n) ensures m == n {
      if m < n {
        OnlyWalk(E, a, z, m, n);
      } else if n < m {
        OnlyWalk(E, a, z, n, m);
      }
    }
  }

  lemma {:induction false} OnlyWalk(E: Edges, a: Hash, z: Hash, m: nat, n: nat)
    requires forall h :: |Parents(E, h)| <= 1
    requires Walk(E, a, z, m) && Walk(E, a, z, n) && m < n
    ensures Reaches(E, z, z)
    decreases m
  {
    if m > 0 {
      var c :| HasEdge(E, a, c) && Walk(E, c, z, m - 1);
      var c' :| HasEdge(E, a, c') && Walk(E, c', z, n - 1);
      assert Parents(E, a)[0] == c == c';
      OnlyWalk(E, c, z, m - 1, n - 1);
    }
  }

  // ---- Exactly when it is the longest path --------------------------------------------------------

  /** The first of the parents, in stored order, that is or reaches `z`. */
  ghost function FirstTowards(E: Edges, parents: seq<Hash>, z: Hash): Option<Hash>
    decreases |parents|
  {
    if parents == [] then None
    else if ReachesOrEqual(E, parents[0], z) then Some(parents[0])
    else FirstTowards(E, parents[1..], z)
  }

  /** A walk that takes, at every node, the first stored parent that is or reaches `z`. */
  ghost predicate FirstWalk(E: Edges, a: Hash, z: Hash, n: nat)
    decreases n
  {
    if n == 0 then a == z else
      var next := FirstTowards(E, Parents(E, a), z);
      next.Some? && FirstWalk(E, next.value, z, n - 1)
  }

  lemma {:induction false} FirstTowardsListed(E: Edges, parents: seq<Hash>, z: Hash)
    requires FirstTowards(E, parents, z).Some?
    ensures FirstTowards(E, parents, z).value in parents
    decreases |parents|
  {
    if !ReachesOrEqual(E, parents[0], z) {
      FirstTowardsListed(E, parents[1..], z);
    }
  }

  lemma {:induction false} FirstTowardsIs(E: Edges, parents: seq<Hash>, z: Hash, i: nat)
    requires i < |parents| && ReachesOrEqual(E, parents[i], z)
    requires forall j :: 0 <= j < i ==> !ReachesOrEqual(E, parents[j], z)
    ensures FirstTowards(E, parents, z) == Some(parents[i])
    decreases |parents|
  {
    if i > 0 {
      FirstTowardsIs(E, parents[1..], z, i - 1);
    }
  }

  lemma {:induction false} FirstWalkIsWalk(E: Edges, a: Hash, z: Hash, n: nat)
    requires FirstWalk(E, a, z, n)
    ensures Walk(E, a, z, n)
    decreases n
  {
    if n > 0 {
      var next := FirstTowards(E, Parents(E, a), z).value;
      FirstTowardsListed(E, Parents(E, a), z);
      FirstWalkIsWalk(E, next, z, n - 1);
      assert HasEdge(E, a, next);
    }
  }

  lemma NoReturn(E: Edges, z: Hash, n: nat)
    requires Acyclic(E) && FirstWalk(E, z, z, n)
    ensures n == 0
  {
    FirstWalkIsWalk(E, z, z, n);
    assert !Reaches(E, z, z);
  }

  lemma {:induction false} FirstWalkUnique(E: Edges, a: Hash, z: Hash, m: nat, n: nat)
    requires Acyclic(E) && FirstWalk(E, a, z, m) && FirstWalk(E, a, z, n)
    ensures m == n
    decreases m
  {
    if a == z {
      NoReturn(E, z, m);
      NoReturn(E, z, n);
    } else {
      FirstWalkUnique(E, FirstTowards(E, Parents(E, a), z).value, z, m - 1, n - 1);
    }
  }

  /** Everything with parents that is `x` or is reached from it is in `seen`. */
  ghost predicate DoneBelow(E: Edges, x: Hash, seen: set<Hash>) {
    forall z :: ReachesOrEqual(E, x, z) && Parents(E, z) != [] ==> z in seen
  }

  /** Of the proper ancestors of `cur`, those in `seen` are done. */
  ghost predicate DoneAbove(E: Edges, cur: Hash, seen: set<Hash>) {
    forall x :: x in seen && Reaches(E, cur, x) ==> DoneBelow(E, x, seen)
  }

  /** The first walk from `cur` to `z`, with one more edge, has at most this length. */
  ghost predicate FirstMet(E: Edges, cur: Hash, z: Hash, bound: nat) {
    Parents(E, z) != [] && exists m: nat :: FirstWalk(E, cur, z, m) && m + 1 <= bound
  }

  ghost predicate AllFirstMet(E: Edges, cur: Hash, hs: set<Hash>, bound: nat) {
    forall z :: z in hs ==> FirstMet(E, cur, z, bound)
  }

  /** For some node of `hs` that length is attained. */
  ghost predicate FirstAttained(E: Edges, cur: Hash, hs: set<Hash>, bound: nat) {
    exists z, m: nat :: z in hs && FirstWalk(E, cur, z, m) && m + 1 == bound
  }

  /** A node not in `seen` is reached through no parent before the i-th, so a first walk from there can be prolonged. */
  lemma FirstProlonged(E: Edges, cur: Hash, i: nat, z: Hash, m: nat, seen: set<Hash>)
    requires i < |Parents(E, cur)| && FirstWalk(E, Parents(E, cur)[i], z, m)
    requires forall j :: 0 <= j < i ==> DoneBelow(E, Parents(E, cur)[j], seen)
    requires z !in seen && Parents(E, z) != []
    ensures FirstWalk(E, cur, z, m + 1)
  {
    FirstWalkIsWalk(E, Parents(E, cur)[i], z, m);
    FirstTowardsIs(E, Parents(E, cur), z, i);
  }

  /** Everything `hs` adds below the i-th parent, seen from `cur`. */
  lemma ProlongAll(E: Edges, cur: Hash, i: nat, hs: set<Hash>, bound: nat, seen: set<Hash>)
    requires i < |Parents(E, cur)| && AllFirstMet(E, Parents(E, cur)[i], hs, bound)
    requires forall j :: 0 <= j < i ==> DoneBelow(E, Parents(E, cur)[j], seen)
    requires hs !! seen
    ensures AllFirstMet(E, cur, hs, bound + 1)
    ensures forall k: nat :: FirstAttained(E, Parents(E, cur)[i], hs, k) ==> FirstAttained(E, cur, hs, k + 1)
  {
    forall z | z in hs ensures FirstMet(E, cur, z, bound + 1) {
      assert FirstMet(E, Parents(E, cur)[i], z, bound);
      var m: nat :| FirstWalk(E, Parents(E, cur)[i], z, m) && m + 1 <= bound;
      FirstProlonged(E, cur, i, z, m, seen);
    }
    forall k: nat | FirstAttained(E, Parents(E, cur)[i], hs, k) ensures FirstAttained(E, cur, hs, k + 1) {
      var z, m: nat :| z in hs && FirstWalk(E, Parents(E, cur)[i], z, m) && m + 1 == k;
      assert FirstMet(E, Parents(E, cur)[i], z, bound);
      FirstProlonged(E, cur, i, z, m, seen);
    }
  }

  lemma DoneFurther(E: Edges, p: Hash, x: Hash, seen: set<Hash>)
    requires DoneBelow(E, p, seen) && ReachesOrEqual(E, p, x)
    ensures DoneBelow(E, x, seen)
  {
    forall z | ReachesOrEqual(E, x, z) && Parents(E, z) != [] ensures z in seen {
      var m: nat :| Walk(E, p, x, m);
      var n: nat :| Walk(E, x, z, n);
      WalkJoin(E, p, x, z, m, n);
    }
  }

  /** A search from a parent of `cur` starts with what it needs, and leaves what the next one needs. */
  lemma DoneAboveParent(E: Edges, cur: Hash, p: Hash, visited: set<Hash>)
    requires DoneAbove(E, cur, visited) && HasEdge(E, cur, p)
    ensures DoneAbove(E, p, visited) && (p in visited ==> DoneBelow(E, p, visited))
  {
    EdgeReaches(E, cur, p);
    forall x | x in visited && Reaches(E, p, x) ensures DoneBelow(E, x, visited) {
      ReachesJoin(E, cur, p, x);
    }
  }

  lemma DoneAboveAfter(E: Edges, cur: Hash, p: Hash, visited: set<Hash>, seen: set<Hash>, bound: nat)
    requires DoneAbove(E, cur, visited) && visited <= seen
    requires DoneBelow(E, p, seen) && AllFirstMet(E, p, seen - visited, bound)
    ensures DoneAbove(E, cur, seen)
  {
    forall x | x in seen && Reaches(E, cur, x) ensures DoneBelow(E, x, seen) {
      if x !in visited {
        assert FirstMet(E, p, x, bound);
        var m: nat :| FirstWalk(E, p, x, m);
        FirstWalkIsWalk(E, p, x, m);
        DoneFurther(E, p, x, seen);
      }
    }
  }

  lemma DoneBelowFromParents(E: Edges, cur: Hash, seen: set<Hash>)
    requires cur in seen || Parents(E, cur) == []
    requires forall p :: HasEdge(E, cur, p) ==> DoneBelow(E, p, seen)
    ensures DoneBelow(E, cur, seen)
  {
    forall z | ReachesOrEqual(E, cur, z) && Parents(E, z) != [] ensures z in seen {
      var n: nat :| Walk(E, cur, z, n);
      if n > 0 {
        var c :| HasEdge(E, cur, c) && Walk(E, c, z, n - 1);
        assert ReachesOrEqual(E, c, z);
      }
    }
  }

  lemma FirstMetWithin(E: Edges, cur: Hash, hs: set<Hash>, b: nat, c: nat)
    requires AllFirstMet(E, cur, hs, b) && b <= c
    ensures AllFirstMet(E, cur, hs, c)
  {
    forall z | z in hs ensures FirstMet(E, cur, z, c) {
      assert FirstMet(E, cur, z, b);
    }
  }

  lemma FirstMetUnion(E: Edges, cur: Hash, hs: set<Hash>, more: set<Hash>, all: set<Hash>, bound: nat)
    requires AllFirstMet(E, cur, hs, bound) && AllFirstMet(E, cur, more, bound) && all == hs + more
    ensures AllFirstMet(E, cur, all, bound)
    ensures forall k: nat :: FirstAttained(E, cur, hs, k) || FirstAttained(E, cur, more, k)
              ==> FirstAttained(E, cur, all, k)
  {
  }

  /** On an acyclic graph the search meets every node on the first walk to it, and returns the longest of these. */
  lemma {:induction false} DepthMeetsFirst(E: Edges, cur: Hash, visited: set<Hash>, depth: nat)
    requires Acyclic(E) && DoneAbove(E, cur, visited) && (cur in visited ==> DoneBelow(E, cur, visited))
    ensures var (r, seen) := DepthFrom(E, cur, visited, depth);
            && DoneBelow(E, cur, seen)
            && AllFirstMet(E, cur, seen - visited, r - depth)
            && (r == depth || FirstAttained(E, cur, seen - visited, r - depth))
    decreases E.Keys - visited, 0, 0
  {
    var (r, seen) := DepthFrom(E, cur, visited, depth);
    if Parents(E, cur) == [] {
      DoneBelowFromParents(E, cur, seen);
    } else if cur !in visited {
      assert cur in E.Keys - visited;
      var V := visited + {cur};
      EnterAbove(E, cur, visited);
      assert Parents(E, cur)[0..] == Parents(E, cur);
      DepthAmongMeetsFirst(E, cur, 0, V, depth, depth);
      forall p | HasEdge(E, cur, p) ensures DoneBelow(E, p, seen) {
        var j :| 0 <= j < |Parents(E, cur)| && Parents(E, cur)[j] == p;
      }
      DoneBelowFromParents(E, cur, seen);
      assert FirstWalk(E, cur, cur, 0);
      assert FirstMet(E, cur, cur, r - depth);
      assert FirstAttained(E, cur, {cur}, 1);
      FirstMetUnion(E, cur, {cur}, seen - V, seen - visited, r - depth);
    }
  }

  /** On entering `cur`, it is not its own ancestor. */
  lemma EnterAbove(E: Edges, cur: Hash, visited: set<Hash>)
    requires Acyclic(E) && DoneAbove(E, cur, visited)
    ensures DoneAbove(E, cur, visited + {cur})
  {
    assert !Reaches(E, cur, cur);
    forall x | x in visited + {cur} && Reaches(E, cur, x) ensures DoneBelow(E, x, visited + {cur}) {
      assert x in visited;
    }
  }

  /** What the i-th parent adds and what the later ones add, together. */
  lemma FirstPartsJoin(E: Edges, cur: Hash, i: nat, visited: set<Hash>, mid: set<Hash>, seen: set<Hash>,
                       best: nat, d: nat, r: nat)
    requires i < |Parents(E, cur)| && visited <= mid <= seen && 0 < d <= r && best <= r
    requires forall j :: 0 <= j < i ==> DoneBelow(E, Parents(E, cur)[j], visited)
    requires AllFirstMet(E, Parents(E, cur)[i], mid - visited, d - 1)
    requires d == 1 || FirstAttained(E, Parents(E, cur)[i], mid - visited, d - 1)
    requires AllFirstMet(E, cur, seen - mid, r)
    requires r == d || r == best || r == 1 || FirstAttained(E, cur, seen - mid, r)
    ensures AllFirstMet(E, cur, seen - visited, r)
    ensures r == best || r == 1 || FirstAttained(E, cur, seen - visited, r)
  {
    ProlongAll(E, cur, i, mid - visited, d - 1, visited);
    FirstMetWithin(E, cur, mid - visited, d, r);
    FirstMetUnion(E, cur, mid - visited, seen - mid, seen - visited, r);
  }

  lemma {:induction false} DepthAmongMeetsFirst(
      E: Edges, cur: Hash, i: nat, visited: set<Hash>, depth: nat, best: nat)
    requires Acyclic(E) && i <= |Parents(E, cur)| && depth <= best && DoneAbove(E, cur, visited)
    requires forall j :: 0 <= j < i ==> DoneBelow(E, Parents(E, cur)[j], visited)
    ensures var (r, seen) := DepthAmong(E, Parents(E, cur)[i..], visited, depth, best);
            && (forall j :: 0 <= j < |Parents(E, cur)| ==> DoneBelow(E, Parents(E, cur)[j], seen))
            && AllFirstMet(E, cur, seen - visited, r - depth)
            && (r == best || r == depth + 1 || FirstAttained(E, cur, seen - visited, r - depth))
            && (i < |Parents(E, cur)| ==> depth + 1 <= r)
    decreases E.Keys - visited, 1, |Parents(E, cur)| - i
  {
    var parents := Parents(E, cur);
    if i < |parents| {
      var p := parents[i];
      assert parents[i..][0] == p && parents[i..][1..] == parents[i + 1..];
      var (d, mid) := DepthFrom(E, p, visited, depth + 1);
      var best' := if d > best then d else best;
      var (r, seen) := DepthAmong(E, parents[i + 1..], mid, depth, best');
      assert DepthAmong(E, parents[i..], visited, depth, best) == (r, seen);
      DoneAboveParent(E, cur, p, visited);
      DepthMeetsFirst(E, p, visited, depth + 1);
      DoneAboveAfter(E, cur, p, visited, mid, d - depth - 1);
      DoneBelowKept(E, parents[..i], visited, mid);
      DepthAmongMeetsFirst(E, cur, i + 1, mid, depth, best');
      FirstPartsJoin(E, cur, i, visited, mid, seen, best - depth, d - depth, r - depth);
    }
  }

  lemma DoneBelowKept(E: Edges, xs: seq<Hash>, visited: set<Hash>, seen: set<Hash>)
    requires visited <= seen && forall j :: 0 <= j < |xs| ==> DoneBelow(E, xs[j], visited)
    ensures forall j :: 0 <= j < |xs| ==> DoneBelow(E, xs[j], seen)
  {
  }

  /** Some first walk from `a` to a node with parents has, with one more edge, length `d`. */
  ghost predicate FirstWalkOf(E: Edges, a: Hash, d: nat) {
    exists z, n: nat :: FirstWalk(E, a, z, n) && Parents(E, z) != [] && n + 1 == d
  }

  /** `d` is one more than the length of a longest first walk to a node with parents, or 0 if there is none. */
  ghost predicate IsFirstDepth(E: Edges, d: nat) {
    && (forall a, z, n: nat :: FirstWalk(E, a, z, n) && Parents(E, z) != [] ==> n + 1 <= d)
    && (d == 0 || exists a :: FirstWalkOf(E, a, d))
  }

  lemma DepthFromIsFirst(E: Edges, a: Hash)
    requires Acyclic(E)
    ensures var r := DepthFrom(E, a, {}, 0).0;
            && (forall z, n: nat :: FirstWalk(E, a, z, n) && Parents(E, z) != [] ==> n + 1 <= r)
            && (r == 0 || FirstWalkOf(E, a, r))
  {
    var (r, seen) := DepthFrom(E, a, {}, 0);
    DepthMeetsFirst(E, a, {}, 0);
    assert seen - {} == seen;
    forall z, n: nat | FirstWalk(E, a, z, n) && Parents(E, z) != [] ensures n + 1 <= r {
      FirstWalkIsWalk(E, a, z, n);
      assert FirstMet(E, a, z, r);
      var m: nat :| FirstWalk(E, a, z, m) && m + 1 <= r;
      FirstWalkUnique(E, a, z, m, n);
    }
    if r != 0 {
      var z, m: nat :| z in seen && FirstWalk(E, a, z, m) && m + 1 == r;
      assert FirstMet(E, a, z, r);
      assert FirstWalk(E, a, z, m) && Parents(E, z) != [] && m + 1 == r;
    }
  }

  /** On every acyclic graph the depth is exactly this: the order of the stored parents decides which walks count. */
  lemma DepthIsFirst(E: Edges, d: nat)
    requires Acyclic(E)
    ensures IsDepth(E, d) <==> IsFirstDepth(E, d)
  {
    forall a ensures DepthFrom(E, a, {}, 0).0 > 0 ==> a in E {
    }
    if IsDepth(E, d) {
      forall a, z, n: nat | FirstWalk(E, a, z, n) && Parents(E, z) != [] ensures n + 1 <= d {
        DepthFromIsFirst(E, a);
      }
      if d != 0 {
        var a :| a in E && DepthFrom(E, a, {}, 0).0 == d;
        DepthFromIsFirst(E, a);
      }
    }
    if IsFirstDepth(E, d) {
      forall a | a in E ensures DepthFrom(E, a, {}, 0).0 <= d {
        DepthFromIsFirst(E, a);
      }
      if d != 0 {
        var a :| FirstWalkOf(E, a, d);
        DepthFromIsFirst(E, a);
      }
    }
  }

  /** Some longest path is a first walk up to its last edge, or there are no edges at all. */
  ghost predicate LongestIsFirst(E: Edges) {
    || (forall h :: Parents(E, h) == [])
    || exists a, z, n: nat :: FirstWalk(E, a, z, n) && Parents(E, z) != [] && IsLongest(E, n + 1)
  }

  /** The depth is the longest path exactly if some longest path is the one the stored order leads along. */
  lemma DepthLongestIff(E: Edges, d: nat)
    requires IsDepth(E, d)
    ensures IsLongest(E, d) <==> Acyclic(E) && LongestIsFirst(E)
  {
    if IsLongest(E, d) {
      LongestAcyclic(E, d);
      DepthIsFirst(E, d);
      if h :| Parents(E, h) != [] {
        EdgeReaches(E, h, Parents(E, h)[0]);
      }
    }
    if Acyclic(E) && LongestIsFirst(E) {
      var a0, b0 := DepthAttained(E, d);
      DepthIsFirst(E, d);
    }
  }

  lemma {:induction false} CyclePumps(E: Edges, x: Hash, n: nat, k: nat)
    requires n > 0 && Walk(E, x, x, n)
    ensures exists m: nat :: m >= k && Walk(E, x, x, m)
    decreases k
  {
    if k == 0 {
      assert Walk(E, x, x, n);
    } else {
      CyclePumps(E, x, n, k - 1);
      var m: nat :| m >= k - 1 && Walk(E, x, x, m);
      WalkJoin(E, x, x, x, n, m);
      assert Walk(E, x, x, n + m);
    }
  }

  /** A graph with a longest path has no cycle. */
  lemma LongestAcyclic(E: Edges, d: nat)
    requires IsLongest(E, d)
    ensures Acyclic(E)
  {
    forall x ensures !Reaches(E, x, x) {
      if Reaches(E, x, x) {
        var n: nat :| n > 0 && Walk(E, x, x, n);
        CyclePumps(E, x, n, d + 1);
      }
    }
  }
}
