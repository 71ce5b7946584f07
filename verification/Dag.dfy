/** The mutable graph of a node: guarded insertion, tips and depth, each run as the source runs it. */
module Dag {
  import opened Bytes
  import opened Graph
  import opened Search
  import opened Insertion
  import opened Ordering
  import opened Depth

  /** The one sorted listing of the keys that are nobody's parent. */
  ghost predicate IsTipList(E: Edges, tips: seq<Hash>) {
    Sorted(tips) && forall h :: h in tips <==> IsTip(E, h)
  }

  /** However the map is walked, the listing is the same. */
  lemma TipListUnique(E: Edges, s: seq<Hash>, t: seq<Hash>)
    requires IsTipList(E, s) && IsTipList(E, t)
    ensures s == t
  {
    assert Elements(s) == Elements(t);
    SortedUnique(s, t);
  }

  /** The `visited` map one search shares among all its recursive calls. */
  class VisitedSet {
    var seen: set<Hash>

    constructor ()
      ensures seen == {}
    {
      seen := {};
    }
  }

  class DagManager {
    var edges: Edges

    constructor ()
      ensures edges == map[]
    {
      edges := map[];
    }

    method AddEdge(from: Hash, to: Hash) returns (out: AddOutcome)
      modifies this
      ensures (edges, out) == TryAdd(old(edges), from, to)
    {
      if from == to {
        return CycleDetected;
      }
      var visited := new VisitedSet();
      var found := IsAncestorLocked(to, from, visited, 0);
      if found {
        return CycleDetected;
      }
      var existing := Parents(edges, from);
      for i := 0 to |existing|
        invariant to !in existing[..i]
      {
        if existing[i] == to {
          return EdgeDuplicate;
        }
      }
      edges := edges[from := existing + [to]];
      return Added;
    }

    method IsAncestorLocked(cur: Hash, target: Hash, visited: VisitedSet, depth: nat) returns (found: bool)
      modifies visited
      ensures (found, visited.seen) == Find(edges, cur, target, old(visited.seen), depth)
      decreases CYCLE_CHECK_DEPTH + 1 - depth
    {
      if depth > CYCLE_CHECK_DEPTH || cur in visited.seen {
        return false;
      }
      visited.seen := visited.seen + {cur};
      var parents := Parents(edges, cur);
      ghost var entry := visited.seen;
      for i := 0 to |parents|
        invariant FindAmong(edges, parents, target, entry, depth)
               == FindAmong(edges, parents[i..], target, visited.seen, depth)
      {
        assert parents[i..][1..] == parents[i + 1..];
        if parents[i] == target {
          return true;
        }
        found := IsAncestorLocked(parents[i], target, visited, depth + 1);
        if found {
          return true;
        }
      }
      return false;
    }

    method AdvanceTip(txHash: Hash, parents: seq<Hash>) returns (ok: bool)
      modifies this
      ensures (edges, ok) == Advance(old(edges), txHash, parents)
    {
      for i := 0 to |parents|
        invariant Advance(old(edges), txHash, parents) == Advance(edges, txHash, parents[i..])
      {
        assert parents[i..][1..] == parents[i + 1..];
        var out := AddEdge(txHash, parents[i]);
        if out == CycleDetected {
          return false;
        }
      }
      return true;
    }

    /** The sorted list of the keys that are nobody's parent, whatever order the map is walked in. */
    method CurrentTips() returns (tips: seq<Hash>)
      ensures IsTipList(edges, tips)
    {
      var hasChild := CollectParents();
      var rest := edges.Keys;
      tips := [];
      while rest != {}
        invariant rest <= edges.Keys
        invariant forall i, j :: 0 <= i < j < |tips| ==> tips[i] != tips[j]
        invariant forall h :: h in tips <==> h in edges.Keys - rest && h !in hasChild
        decreases rest
      {
        var node :| node in rest;
        rest := rest - {node};
        if node !in hasChild {
          tips := tips + [node];
        }
      }
      ghost var collected := tips;
      tips := SortHashes(tips);
      forall h ensures h in tips <==> IsTip(edges, h) {
        assert h in tips <==> h in Elements(collected);
        assert h in hasChild <==> !NobodysParent(edges, h);
      }
    }

    /** Every node some key names as a parent. */
    method CollectParents() returns (hasChild: set<Hash>)
      ensures forall p :: p in hasChild <==> exists k :: HasEdge(edges, k, p)
    {
      hasChild := {};
      var rest := edges.Keys;
      while rest != {}
        invariant rest <= edges.Keys
        invariant forall p :: p in hasChild <==> exists k :: k in edges.Keys - rest && HasEdge(edges, k, p)
        decreases rest
      {
        var node :| node in rest;
        ghost var before, todo := hasChild, rest;
        for i := 0 to |edges[node]|
          invariant forall p :: p in hasChild <==> p in before || p in edges[node][..i]
        {
          hasChild := hasChild + {edges[node][i]};
        }
        rest := rest - {node};
        forall p ensures p in hasChild <==> exists k :: k in edges.Keys - rest && HasEdge(edges, k, p) {
          assert edges[node][..|edges[node]|] == edges[node];
          if p in before {
            var k :| k in edges.Keys - todo && HasEdge(edges, k, p);
            assert k in edges.Keys - rest;
          } else if HasEdge(edges, node, p) {
            assert node in edges.Keys - rest;
          }
        }
      }
    }

    /** The largest estimate over all keys. */
    method Depth() returns (max: nat)
      ensures IsDepth(edges, max)
    {
      max := 0;
      var rest := edges.Keys;
      while rest != {}
        invariant rest <= edges.Keys
        invariant forall k :: k in edges.Keys - rest ==> DepthFrom(edges, k, {}, 0).0 <= max
        invariant max == 0 || exists k :: k in edges && DepthFrom(edges, k, {}, 0).0 == max
        decreases rest
      {
        var node :| node in rest;
        rest := rest - {node};
        var visited := new VisitedSet();
        var d := DepthSearch(node, visited, 0);
        if d > max {
          max := d;
        }
      }
    }

    method DepthSearch(cur: Hash, visited: VisitedSet, depth: nat) returns (max: nat)
      modifies visited
      ensures (max, visited.seen) == DepthFrom(edges, cur, old(visited.seen), depth)
      decreases edges.Keys - visited.seen
    {
      var parents := Parents(edges, cur);
      if cur in visited.seen || parents == [] {
        return depth;
      }
      assert cur in edges.Keys - visited.seen;
      visited.seen := visited.seen + {cur};
      ghost var entry := visited.seen;
      max := depth;
      for i := 0 to |parents|
        invariant entry <= visited.seen
        invariant DepthAmong(edges, parents, entry, depth, depth)
               == DepthAmong(edges, parents[i..], visited.seen, depth, max)
      {
        assert parents[i..][1..] == parents[i + 1..];
        var d := DepthSearch(parents[i], visited, depth + 1);
        if d > max {
          max := d;
        }
      }
    }
  }

  /** For edges s -> a, s -> b, a -> c, b -> a the depth is 2 although the longest path has length 3. */
  lemma DepthNotLongest(s: Hash, a: Hash, b: Hash, c: Hash)
    requires Distinct([s, a, b, c])
    ensures var E := map[s := [a, b], a := [c], b := [a]];
            Acyclic(E) && IsDepth(E, 2) && Walk(E, s, c, 3)
  {
    var E := map[s := [a, b], a := [c], b := [a]];
    var names := [s, a, b, c];
    assert names[0] == s && names[1] == a && names[2] == b && names[3] == c;
    DiamondDepths(E, s, a, b, c);
    EdgeReaches(E, s, b);
    EdgeReaches(E, b, a);
    EdgeReaches(E, a, c);
    WalkJoin(E, b, a, c, 1, 1);
    WalkJoin(E, s, b, c, 1, 2);
    DiamondAcyclic(E, s, a, b, c);
  }

  /** Storing the same parents of s in the other order gives 3: the estimate depends on more than the edges. */
  lemma DepthDependsOnOrder(s: Hash, a: Hash, b: Hash, c: Hash)
    requires Distinct([s, a, b, c])
    ensures var E, E' := map[s := [a, b], a := [c], b := [a]], map[s := [b, a], a := [c], b := [a]];
            && (forall x, y :: HasEdge(E, x, y) <==> HasEdge(E', x, y))
            && IsDepth(E, 2) && IsDepth(E', 3)
  {
    var names := [s, a, b, c];
    assert names[0] == s && names[1] == a && names[2] == b && names[3] == c;
    DiamondDepths(map[s := [a, b], a := [c], b := [a]], s, a, b, c);
    ReorderedDepths(map[s := [b, a], a := [c], b := [a]], s, a, b, c);
  }

  /** Through a node with one parent the search just goes on. */
  lemma VisitOnlyParent(E: Edges, x: Hash, p: Hash, visited: set<Hash>, depth: nat)
    requires x !in visited && Parents(E, x) == [p]
    ensures DepthFrom(E, x, visited, depth) == DepthFrom(E, p, visited + {x}, depth + 1)
  {
    var r := DepthFrom(E, p, visited + {x}, depth + 1);
    assert [p][1..] == [] && DepthAmong(E, [], r.1, depth, r.0) == r;
    assert DepthAmong(E, [p], visited + {x}, depth, depth) == r;
  }

  /** Through a node with two parents it visits one after the other. */
  lemma VisitTwoParents(E: Edges, x: Hash, p: Hash, q: Hash, visited: set<Hash>, depth: nat)
    requires x !in visited && Parents(E, x) == [p, q]
    ensures var first := DepthFrom(E, p, visited + {x}, depth + 1);
            var second := DepthFrom(E, q, first.1, depth + 1);
            DepthFrom(E, x, visited, depth) == (if second.0 > first.0 then second.0 else first.0, second.1)
  {
    var first := DepthFrom(E, p, visited + {x}, depth + 1);
    var second := DepthFrom(E, q, first.1, depth + 1);
    var best := if second.0 > first.0 then second.0 else first.0;
    assert [p, q][1..] == [q] && [q][1..] == [] && DepthAmong(E, [], second.1, depth, best) == (best, second.1);
    assert DepthAmong(E, [q], first.1, depth, first.0) == (best, second.1);
  }

  lemma ReorderedDepths(E: Edges, s: Hash, a: Hash, b: Hash, c: Hash)
    requires s != a && s != b && s != c && a != b && a != c && b != c
    requires E == map[s := [b, a], a := [c], b := [a]]
    ensures IsDepth(E, 3)
  {
    VisitOnlyParent(E, a, c, {}, 0);
    VisitOnlyParent(E, b, a, {}, 0);
    VisitOnlyParent(E, a, c, {} + {b}, 1);
    VisitTwoParents(E, s, b, a, {}, 0);
    VisitOnlyParent(E, b, a, {} + {s}, 1);
    VisitOnlyParent(E, a, c, {} + {s} + {b}, 2);
  }

  lemma DiamondDepths(E: Edges, s: Hash, a: Hash, b: Hash, c: Hash)
    requires s != a && s != b && s != c && a != b && a != c && b != c
    requires E == map[s := [a, b], a := [c], b := [a]]
    ensures IsDepth(E, 2)
  {
    VisitOnlyParent(E, a, c, {}, 0);
    VisitOnlyParent(E, b, a, {}, 0);
    VisitOnlyParent(E, a, c, {} + {b}, 1);
    VisitTwoParents(E, s, a, b, {}, 0);
    VisitOnlyParent(E, a, c, {} + {s}, 1);
    VisitOnlyParent(E, b, a, {} + {s} + {a}, 1);
  }

  lemma DiamondAcyclic(E: Edges, s: Hash, a: Hash, b: Hash, c: Hash)
    requires s != a && s != b && s != c && a != b && a != c && b != c
    requires E == map[s := [a, b], a := [c], b := [a]]
    ensures Acyclic(E)
  {
    var rank := map[c := 0, a := 1, b := 2, s := 3];
    assert forall x, y :: HasEdge(E, x, y) ==> x in rank && y in rank && rank[y] < rank[x];
    RankedAcyclic(E, rank);
  }

  lemma RankedAcyclic(E: Edges, rank: map<Hash, int>)
    requires forall x, y :: HasEdge(E, x, y) ==> x in rank && y in rank && rank[y] < rank[x]
    ensures Acyclic(E)
  {
    forall x ensures !Reaches(E, x, x) {
      if Reaches(E, x, x) {
        var n: nat :| n > 0 && Walk(E, x, x, n);
        RankFalls(E, rank, x, x, n);
      }
    }
  }

  lemma {:induction false} RankFalls(E: Edges, rank: map<Hash, int>, x: Hash, y: Hash, n: nat)
    requires forall x, y :: HasEdge(E, x, y) ==> x in rank && y in rank && rank[y] < rank[x]
    requires n > 0 && Walk(E, x, y, n)
    ensures x in rank && y in rank && rank[y] < rank[x]
    decreases n
  {
    var c :| HasEdge(E, x, c) && Walk(E, c, y, n - 1);
    if n > 1 {
      RankFalls(E, rank, c, y, n - 1);
    }
  }
}
