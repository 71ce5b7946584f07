/**
 The depth-limited ancestor search that guards edge insertion. It shares one visited set
 among all branches and gives up below depth 200, so a `false` answer is not always right;
 this module proves when it is.
 */
module Search {
  import opened Bytes
  import opened Graph

  const CYCLE_CHECK_DEPTH: nat := 200

  /** The answer of the search at `cur`, and the visited set it leaves behind. */
  function Find(E: Edges, cur: Hash, target: Hash, visited: set<Hash>, depth: nat): (r: (bool, set<Hash>))
    ensures visited <= r.1
    decreases CYCLE_CHECK_DEPTH + 1 - depth, 1, 0
  {
    if depth > CYCLE_CHECK_DEPTH || cur in visited then
      (false, visited)
    else
      FindAmong(E, Parents(E, cur), target, visited + {cur}, depth)
  }

  /** The loop of the search over the parents of a node at `depth`. */
  function FindAmong(E: Edges, parents: seq<Hash>, target: Hash, visited: set<Hash>, depth: nat): (r: (bool, set<Hash>))
    requires depth <= CYCLE_CHECK_DEPTH
    ensures visited <= r.1
    decreases CYCLE_CHECK_DEPTH + 1 - depth, 0, |parents|
  {
    if parents == [] then
      (false, visited)
    else if parents[0] == target then
      (true, visited)
    else
      var r := Find(E, parents[0], target, visited, depth + 1);
      if r.0 then r else FindAmong(E, parents[1..], target, r.1, depth)
  }

  /** Soundness, on every graph and from every visited set: a reported ancestor is one. */
  lemma {:induction false} FindSound(E: Edges, cur: Hash, target: Hash, visited: set<Hash>, depth: nat)
    requires Find(E, cur, target, visited, depth).0
    ensures Reaches(E, cur, target)
    decreases CYCLE_CHECK_DEPTH + 1 - depth, 1, 0
  {
    var p := FindAmongSound(E, Parents(E, cur), target, visited + {cur}, depth);
    EdgeReaches(E, cur, p);
    ReachesJoin(E, cur, p, target);
  }

  lemma {:induction false} FindAmongSound(E: Edges, parents: seq<Hash>, target: Hash, visited: set<Hash>, depth: nat)
    returns (p: Hash)
    requires depth <= CYCLE_CHECK_DEPTH
    requires FindAmong(E, parents, target, visited, depth).0
    ensures p in parents && ReachesOrEqual(E, p, target)
    decreases CYCLE_CHECK_DEPTH + 1 - depth, 0, |parents|
  {
    p := parents[0];
    if p == target {
      assert Walk(E, p, target, 0);
    } else {
      var r := Find(E, p, target, visited, depth + 1);
      if r.0 {
        FindSound(E, p, target, visited, depth + 1);
      } else {
        p := FindAmongSound(E, parents[1..], target, r.1, depth);
      }
    }
  }

  /** A path of distinct nodes with parents, each a parent of the one before. */
  ghost predicate SimplePath(E: Edges, path: seq<Hash>)
    decreases |path|
  {
    path == [] ||
    var init, last := path[..|path| - 1], path[|path| - 1];
    && SimplePath(E, init)
    && last !in init
    && Parents(E, last) != []
    && (init != [] ==> HasEdge(E, init[|init| - 1], last))
  }

  /** No path of distinct nodes with parents that starts at `root` has more than 201 nodes. */
  ghost predicate ShortPaths(E: Edges, root: Hash) {
    forall path :: path != [] && path[0] == root && SimplePath(E, path) ==> |path| <= CYCLE_CHECK_DEPTH + 1
  }

  ghost predicate Enters(E: Edges, region: set<Hash>, cur: Hash) {
    cur in region || Parents(E, cur) == []
  }

  /** The nodes of `done` are explored: none has `target` as a parent, and all parents are in `seen`. */
  ghost predicate Explored(E: Edges, target: Hash, done: set<Hash>, seen: set<Hash>) {
    forall v, p :: v in done && HasEdge(E, v, p) ==> p != target && Enters(E, seen, p)
  }

  /** The nodes the search is inside of, from `root` down. */
  ghost predicate Stack(E: Edges, root: Hash, path: seq<Hash>) {
    SimplePath(E, path) && path != [] && path[0] == root
  }

  /** `cur` is where the search starts or a parent of the node it is inside of. */
  ghost predicate IsNext(E: Edges, root: Hash, path: seq<Hash>, cur: Hash) {
    if path == [] then cur == root else HasEdge(E, path[|path| - 1], cur)
  }

  ghost predicate AllIn(path: seq<Hash>, visited: set<Hash>) {
    forall h :: h in path ==> h in visited
  }

  lemma StackPush(E: Edges, root: Hash, path: seq<Hash>, cur: Hash)
    requires path == [] || Stack(E, root, path)
    requires IsNext(E, root, path, cur) && cur !in path && Parents(E, cur) != []
    ensures Stack(E, root, path + [cur])
  {
    var longer := path + [cur];
    assert longer[..|longer| - 1] == path;
  }

  lemma StackShort(E: Edges, root: Hash, path: seq<Hash>)
    requires ShortPaths(E, root) && Stack(E, root, path)
    ensures |path| <= CYCLE_CHECK_DEPTH + 1
  {
  }

  lemma ExploredJoin(E: Edges, target: Hash, visited: set<Hash>, mid: set<Hash>, seen: set<Hash>)
    requires visited <= mid <= seen
    requires Explored(E, target, mid - visited, mid) && Explored(E, target, seen - mid, seen)
    ensures Explored(E, target, seen - visited, seen)
  {
    forall v, p | v in seen - visited && HasEdge(E, v, p) ensures p != target && Enters(E, seen, p) {
      assert v in mid - visited || v in seen - mid;
    }
  }

  /**
   Completeness under truncation. The nodes the search is inside of form a path of distinct nodes
   with parents, so if those are short the depth limit is met only when nothing is left to visit.
   */
  lemma {:induction false} FindComplete(
      E: Edges, root: Hash, path: seq<Hash>, cur: Hash, target: Hash, visited: set<Hash>)
    requires ShortPaths(E, root) && (path == [] || Stack(E, root, path)) && AllIn(path, visited)
    requires IsNext(E, root, path, cur) && !Find(E, cur, target, visited, |path|).0
    ensures var seen := Find(E, cur, target, visited, |path|).1;
            Explored(E, target, seen - visited, seen) && Enters(E, seen, cur)
    decreases CYCLE_CHECK_DEPTH + 1 - |path|, 1, 0
  {
    if cur !in visited && Parents(E, cur) != [] {
      StackPush(E, root, path, cur);
      StackShort(E, root, path + [cur]);
      FindAmongComplete(E, root, path + [cur], Parents(E, cur), target, visited + {cur});
    }
  }

  lemma {:induction false} FindAmongComplete(
      E: Edges, root: Hash, path: seq<Hash>, parents: seq<Hash>, target: Hash, visited: set<Hash>)
    requires ShortPaths(E, root) && Stack(E, root, path) && AllIn(path, visited)
    requires |path| <= CYCLE_CHECK_DEPTH + 1
    requires forall p :: p in parents ==> IsNext(E, root, path, p)
    requires !FindAmong(E, parents, target, visited, |path| - 1).0
    ensures var seen := FindAmong(E, parents, target, visited, |path| - 1).1;
            && Explored(E, target, seen - visited, seen)
            && forall p :: p in parents ==> p != target && Enters(E, seen, p)
    decreases CYCLE_CHECK_DEPTH + 2 - |path|, 0, |parents|
  {
    if parents != [] {
      var mid := Find(E, parents[0], target, visited, |path|).1;
      FindComplete(E, root, path, parents[0], target, visited);
      FindAmongComplete(E, root, path, parents[1..], target, mid);
      ExploredJoin(E, target, visited, mid, FindAmong(E, parents[1..], target, mid, |path| - 1).1);
      assert parents == [parents[0]] + parents[1..];
    }
  }

  lemma CardinalityMonotone(A: set<Hash>, B: set<Hash>)
    requires A <= B
    ensures |A| <= |B|
  {
    assert B == A + (B - A);
  }

  lemma {:induction false} ExploredUnreachable(E: Edges, target: Hash, seen: set<Hash>, a: Hash, n: nat)
    requires Explored(E, target, seen, seen) && Enters(E, seen, a) && n > 0
    ensures !Walk(E, a, target, n)
    decreases n
  {
    if Walk(E, a, target, n) {
      var c :| HasEdge(E, a, c) && Walk(E, c, target, n - 1);
      if n > 1 {
        ExploredUnreachable(E, target, seen, c, n - 1);
      }
    }
  }

  /** The search is exact, on graphs of any size and on cyclic ones, whenever the simple paths from `cur` are short. */
  lemma FindExactShortPaths(E: Edges, cur: Hash, target: Hash)
    requires ShortPaths(E, cur)
    ensures Find(E, cur, target, {}, 0).0 <==> Reaches(E, cur, target)
  {
    var r := Find(E, cur, target, {}, 0);
    if r.0 {
      FindSound(E, cur, target, {}, 0);
    } else {
      FindComplete(E, cur, [], cur, target, {});
      assert r.1 - {} == r.1;
      forall n: nat | n > 0 ensures !Walk(E, cur, target, n) {
        ExploredUnreachable(E, target, r.1, cur, n);
      }
    }
  }

  /** `region` holds every node with parents that a search entering it can meet. */
  ghost predicate ClosedRegion(E: Edges, region: set<Hash>) {
    forall v, p :: v in region && HasEdge(E, v, p) ==> p in region || Parents(E, p) == []
  }

  lemma {:induction false} PathFits(E: Edges, region: set<Hash>, path: seq<Hash>) returns (nodes: set<Hash>)
    requires ClosedRegion(E, region) && SimplePath(E, path) && (path != [] ==> Enters(E, region, path[0]))
    ensures |nodes| == |path| && nodes <= region && forall h :: h in nodes <==> h in path
    decreases |path|
  {
    nodes := {};
    if path != [] {
      var init, last := path[..|path| - 1], path[|path| - 1];
      nodes := PathFits(E, region, init);
      nodes := nodes + {last};
      assert path == init + [last];
    }
  }

  /** A closed region of at most 201 nodes leaves no room for longer paths, so the search is exact there. */
  lemma FindExactInRegion(E: Edges, cur: Hash, target: Hash, region: set<Hash>)
    requires ClosedRegion(E, region) && Enters(E, region, cur) && |region| <= 201
    ensures ShortPaths(E, cur)
    ensures Find(E, cur, target, {}, 0).0 <==> Reaches(E, cur, target)
  {
    forall path | path != [] && path[0] == cur && SimplePath(E, path) ensures |path| <= CYCLE_CHECK_DEPTH + 1 {
      var nodes := PathFits(E, region, path);
      CardinalityMonotone(nodes, region);
    }
    FindExactShortPaths(E, cur, target);
  }

  /** Every graph with at most 201 keys is such a region. */
  lemma FindExact(E: Edges, cur: Hash, target: Hash)
    requires |E| <= 201
    ensures ShortPaths(E, cur)
    ensures Find(E, cur, target, {}, 0).0 <==> Reaches(E, cur, target)
  {
    assert |E.Keys| == |E|;
    FindExactInRegion(E, cur, target, E.Keys);
  }

  /** Edges out of the target are never looked at: the answer is the same on graphs that agree elsewhere. */
  lemma {:induction false} FindSame(E: Edges, F: Edges, cur: Hash, target: Hash, visited: set<Hash>, depth: nat)
    requires cur != target && AgreeOutside(E, F, target)
    ensures Find(E, cur, target, visited, depth) == Find(F, cur, target, visited, depth)
    decreases CYCLE_CHECK_DEPTH + 1 - depth, 1, 0
  {
    if depth <= CYCLE_CHECK_DEPTH && cur !in visited {
      FindAmongSame(E, F, Parents(E, cur), target, visited + {cur}, depth);
    }
  }

  lemma {:induction false} FindAmongSame(
      E: Edges, F: Edges, parents: seq<Hash>, target: Hash, visited: set<Hash>, depth: nat)
    requires depth <= CYCLE_CHECK_DEPTH && AgreeOutside(E, F, target)
    ensures FindAmong(E, parents, target, visited, depth) == FindAmong(F, parents, target, visited, depth)
    decreases CYCLE_CHECK_DEPTH + 1 - depth, 0, |parents|
  {
    if parents != [] && parents[0] != target {
      FindSame(E, F, parents[0], target, visited, depth + 1);
      var r := Find(E, parents[0], target, visited, depth + 1);
      FindAmongSame(E, F, parents[1..], target, r.1, depth);
    }
  }

  /** A failed search has looked at every edge of what it marked, so none of these leads to the target. */
  lemma {:induction false} FindLeavesNone(E: Edges, cur: Hash, target: Hash, visited: set<Hash>, depth: nat)
    requires !Find(E, cur, target, visited, depth).0
    ensures forall v :: v in Find(E, cur, target, visited, depth).1 - visited ==> !HasEdge(E, v, target)
    ensures depth <= CYCLE_CHECK_DEPTH ==> cur in Find(E, cur, target, visited, depth).1
    decreases CYCLE_CHECK_DEPTH + 1 - depth, 1, 0
  {
    if depth <= CYCLE_CHECK_DEPTH && cur !in visited {
      FindAmongLeavesNone(E, Parents(E, cur), target, visited + {cur}, depth);
    }
  }

  lemma {:induction false} FindAmongLeavesNone(
      E: Edges, parents: seq<Hash>, target: Hash, visited: set<Hash>, depth: nat)
    requires depth <= CYCLE_CHECK_DEPTH && !FindAmong(E, parents, target, visited, depth).0
    ensures var seen := FindAmong(E, parents, target, visited, depth).1;
            && target !in parents
            && (forall v :: v in seen - visited ==> !HasEdge(E, v, target))
            && (depth < CYCLE_CHECK_DEPTH ==> forall p :: p in parents ==> p in seen)
    decreases CYCLE_CHECK_DEPTH + 1 - depth, 0, |parents|
  {
    if parents != [] {
      var mid := Find(E, parents[0], target, visited, depth + 1).1;
      FindLeavesNone(E, parents[0], target, visited, depth + 1);
      FindAmongLeavesNone(E, parents[1..], target, mid, depth);
      assert parents == [parents[0]] + parents[1..];
    }
  }

  lemma WalkOfOne(E: Edges, a: Hash, b: Hash)
    requires Walk(E, a, b, 1)
    ensures HasEdge(E, a, b)
  {
    var c :| HasEdge(E, a, c) && Walk(E, c, b, 0);
  }

  /** Ancestors one or two edges away are always found, on every graph. */
  lemma NearAncestorsFound(E: Edges, cur: Hash, target: Hash, n: nat)
    requires 1 <= n <= 2 && Walk(E, cur, target, n)
    ensures Find(E, cur, target, {}, 0).0
  {
    var c :| HasEdge(E, cur, c) && Walk(E, c, target, n - 1);
    if n == 2 {
      WalkOfOne(E, c, target);
    }
    if !Find(E, cur, target, {}, 0).0 {
      FindAmongLeavesNone(E, Parents(E, cur), target, {} + {cur}, 0);
    }
  }

  // ---- The bound is tight -------------------------------------------------------------------

  ghost predicate Distinct(names: seq<Hash>) {
    forall i, j :: 0 <= i < j < |names| ==> names[i] != names[j]
  }

  /** The chain names[0] -> names[1] -> ... */
  function Chain(names: seq<Hash>): Edges {
    if |names| <= 1 then map[] else Chain(names[1..])[names[0] := [names[1]]]
  }

  lemma {:induction false} ChainShape(names: seq<Hash>)
    requires Distinct(names) && names != []
    ensures |Chain(names)| == |names| - 1
    ensures forall h :: h in Chain(names) ==> h in names
    ensures forall i :: 0 <= i < |names| - 1 ==> Parents(Chain(names), names[i]) == [names[i + 1]]
    ensures Parents(Chain(names), names[|names| - 1]) == []
  {
    if |names| > 1 {
      var rest := names[1..];
      ChainShape(rest);
      assert names[0] !in rest;
      forall i | 0 <= i < |names| - 1 ensures Parents(Chain(names), names[i]) == [names[i + 1]] {
        if i > 0 {
          assert names[i] == rest[i - 1] && names[i + 1] == rest[i];
        }
      }
      assert names[|names| - 1] == rest[|rest| - 1];
    }
  }

  lemma {:induction false} ChainWalk(names: seq<Hash>, i: nat, b: Hash, k: nat)
    requires Distinct(names) && i < |names| && Walk(Chain(names), names[i], b, k)
    ensures i + k < |names| && b == names[i + k]
    decreases k
  {
    if k > 0 {
      var E := Chain(names);
      var c :| HasEdge(E, names[i], c) && Walk(E, c, b, k - 1);
      ChainNext(names, i, c);
      ChainWalk(names, i + 1, b, k - 1);
    }
  }

  lemma ChainNext(names: seq<Hash>, i: nat, c: Hash)
    requires Distinct(names) && i < |names| && HasEdge(Chain(names), names[i], c)
    ensures i + 1 < |names| && c == names[i + 1]
  {
    ChainShape(names);
  }

  lemma {:induction false} ChainReaches(names: seq<Hash>, i: nat)
    requires Distinct(names) && i < |names|
    ensures Walk(Chain(names), names[i], names[|names| - 1], |names| - 1 - i)
    decreases |names| - i
  {
    if i < |names| - 1 {
      ChainShape(names);
      ChainReaches(names, i + 1);
      assert HasEdge(Chain(names), names[i], names[i + 1]);
    }
  }

  lemma ChainAcyclic(names: seq<Hash>)
    requires Distinct(names) && names != []
    ensures Acyclic(Chain(names))
  {
    var E := Chain(names);
    forall x ensures !Reaches(E, x, x) {
      if Reaches(E, x, x) {
        var k: nat :| k > 0 && Walk(E, x, x, k);
        ChainShape(names);
        var i :| 0 <= i < |names| && x == names[i];
        ChainWalk(names, i, x, k);
      }
    }
  }

  lemma OnlyParentMissed(E: Edges, cur: Hash, next: Hash, target: Hash, visited: set<Hash>, depth: nat)
    requires depth <= CYCLE_CHECK_DEPTH && Parents(E, cur) == [next] && next != target
    requires !Find(E, next, target, visited + {cur}, depth + 1).0
    ensures !Find(E, cur, target, visited, depth).0
    ensures cur !in visited ==>
              Find(E, cur, target, visited, depth).1 == Find(E, next, target, visited + {cur}, depth + 1).1
  {
    var seen := Find(E, next, target, visited + {cur}, depth + 1).1;
    assert [next][1..] == [];
    assert FindAmong(E, [], target, seen, depth) == (false, seen);
    assert FindAmong(E, [next], target, visited + {cur}, depth) == (false, seen);
  }

  /** From index `first` on, each name has the next one as its only parent. */
  ghost predicate ChainedFrom(E: Edges, names: seq<Hash>, first: nat) {
    forall i :: first <= i < |names| - 1 ==> Parents(E, names[i]) == [names[i + 1]]
  }

  /** Down a chain of more than 201 nodes the search runs out of depth before the end. */
  lemma {:induction false} LongChainMissed(E: Edges, names: seq<Hash>, i: nat, visited: set<Hash>)
    requires Distinct(names) && |names| > CYCLE_CHECK_DEPTH + 2 && i <= CYCLE_CHECK_DEPTH + 1
    requires ChainedFrom(E, names, i)
    ensures !Find(E, names[i], names[|names| - 1], visited, i).0
    ensures i <= CYCLE_CHECK_DEPTH && (forall k :: i <= k <= CYCLE_CHECK_DEPTH ==> names[k] !in visited) ==>
              names[CYCLE_CHECK_DEPTH] in Find(E, names[i], names[|names| - 1], visited, i).1
    decreases CYCLE_CHECK_DEPTH + 1 - i
  {
    if i <= CYCLE_CHECK_DEPTH {
      LongChainMissed(E, names, i + 1, visited + {names[i]});
      OnlyParentMissed(E, names[i], names[i + 1], names[|names| - 1], visited, i);
    }
  }

  /** On a chain with more than 201 keys the end is missed. */
  lemma ChainEndMissed(names: seq<Hash>, i: nat, visited: set<Hash>)
    requires Distinct(names) && |names| > 202 && i <= 201
    ensures !Find(Chain(names), names[i], names[|names| - 1], visited, i).0
  {
    ChainShape(names);
    LongChainMissed(Chain(names), names, i, visited);
  }

  /** There are enough hashes for a chain of any length below 256^32. */
  lemma DistinctNames(n: nat) returns (names: seq<Hash>)
    requires n <= Pow256(32)
    ensures |names| == n && Distinct(names)
  {
    var codes := DistinctCodes(n, 32);
    names := seq(n, i requires 0 <= i < n => var h: Hash := codes[i]; h);
  }

  lemma {:induction false} DistinctCodes(n: nat, width: nat) returns (codes: seq<seq<byte>>)
    requires n <= Pow256(width)
    ensures |codes| == n
    ensures forall i :: 0 <= i < n ==> codes[i] == BigEndian(i, width) && |codes[i]| == width
    ensures forall i, j :: 0 <= i < j < n ==> codes[i] != codes[j]
  {
    codes := [];
    if n > 0 {
      codes := DistinctCodes(n - 1, width);
      forall i | 0 <= i < n - 1 ensures codes[i] != BigEndian(n - 1, width) {
        if codes[i] == BigEndian(n - 1, width) {
          BigEndianInjective(i, n - 1, width);
        }
      }
      codes := codes + [BigEndian(n - 1, width)];
    }
  }

  // ---- The shared visited set hides short ways -------------------------------------------------------------

  /** A chain with a second, direct edge from its first name to the one at the depth limit. */
  function Shortcut(names: seq<Hash>): Edges
    requires |names| > CYCLE_CHECK_DEPTH + 2
  {
    WithEdge(Chain(names), names[0], names[CYCLE_CHECK_DEPTH])
  }

  lemma ShortcutShape(names: seq<Hash>)
    requires Distinct(names) && |names| > CYCLE_CHECK_DEPTH + 2
    ensures Parents(Shortcut(names), names[0]) == [names[1], names[CYCLE_CHECK_DEPTH]]
    ensures ChainedFrom(Shortcut(names), names, 1) && |Shortcut(names)| == |names| - 1
  {
    ChainShape(names);
    assert Parents(Chain(names), names[0]) == [names[1]];
    assert names[0] in Chain(names);
    assert Shortcut(names).Keys == Chain(names).Keys;
    assert |Shortcut(names).Keys| == |Shortcut(names)| && |Chain(names).Keys| == |Chain(names)|;
  }

  lemma ShortcutAcyclic(names: seq<Hash>)
    requires Distinct(names) && |names| > CYCLE_CHECK_DEPTH + 2
    ensures Acyclic(Shortcut(names))
  {
    var E := Chain(names);
    ChainAcyclic(names);
    if Reaches(E, names[CYCLE_CHECK_DEPTH], names[0]) {
      var k: nat :| k > 0 && Walk(E, names[CYCLE_CHECK_DEPTH], names[0], k);
      ChainWalk(names, CYCLE_CHECK_DEPTH, names[0], k);
    }
    WithEdgeAcyclic(E, names[0], names[CYCLE_CHECK_DEPTH]);
  }

  /** A parent that the search of an earlier one has marked is skipped. */
  lemma MarkedParentSkipped(E: Edges, cur: Hash, a: Hash, near: Hash, target: Hash, seen: set<Hash>)
    requires Parents(E, cur) == [a, near] && a != target && near != target && near in seen
    requires Find(E, a, target, {} + {cur}, 1) == (false, seen)
    ensures !Find(E, cur, target, {}, 0).0
  {
    assert Find(E, near, target, seen, 1) == (false, seen);
    assert [a, near][1..] == [near] && [near][1..] == [];
    assert FindAmong(E, [], target, seen, 0) == (false, seen);
    assert FindAmong(E, [near], target, seen, 0) == (false, seen);
    assert FindAmong(E, [a, near], target, {} + {cur}, 0) == (false, seen);
  }

  lemma WalkAfterEdge(E: Edges, a: Hash, b: Hash, c: Hash, n: nat)
    requires Walk(E, b, c, n)
    ensures Walk(WithEdge(E, a, b), a, c, n + 1)
  {
    var E' := WithEdge(E, a, b);
    WithEdgeEdges(E, a, b);
    WalkMonotone(E, E', b, c, n);
    EdgeReaches(E', a, b);
    WalkJoin(E', a, b, c, 1, n);
  }

  lemma ShortcutWalk(names: seq<Hash>, i: nat)
    requires Distinct(names) && i < |names|
    ensures Walk(WithEdge(Chain(names), names[0], names[i]), names[0], names[|names| - 1], |names| - i)
  {
    ChainReaches(names, i);
    WalkAfterEdge(Chain(names), names[0], names[i], names[|names| - 1], |names| - 1 - i);
  }

  /**
   The search marks the node at the depth limit on its long way down, where it cannot look any further,
   and then skips it on the short way: the end is missed although it is near.
   */
  lemma NearEndMissed(E: Edges, names: seq<Hash>)
    requires Distinct(names) && |names| > CYCLE_CHECK_DEPTH + 2 && ChainedFrom(E, names, 1)
    requires Parents(E, names[0]) == [names[1], names[CYCLE_CHECK_DEPTH]]
    ensures !Find(E, names[0], names[|names| - 1], {}, 0).0
  {
    var target := names[|names| - 1];
    LongChainMissed(E, names, 1, {} + {names[0]});
    MarkedParentSkipped(E, names[0], names[1], names[CYCLE_CHECK_DEPTH], target,
                        Find(E, names[1], target, {} + {names[0]}, 1).1);
  }

  lemma ShortcutMissed(names: seq<Hash>)
    requires Distinct(names) && |names| > CYCLE_CHECK_DEPTH + 2
    ensures !Find(Shortcut(names), names[0], names[|names| - 1], {}, 0).0
  {
    ShortcutShape(names);
    NearEndMissed(Shortcut(names), names);
  }

  lemma ShortcutNear(names: seq<Hash>, n: nat)
    requires Distinct(names) && n > 2 && |names| == CYCLE_CHECK_DEPTH + n
    ensures Walk(Shortcut(names), names[0], names[|names| - 1], n)
  {
    ShortcutWalk(names, CYCLE_CHECK_DEPTH);
  }
}
