/** The transaction graph as a value: an adjacency map from a transaction to its parents. */
module Graph {
  import opened Bytes

  type Edges = map<Hash, seq<Hash>>

  /** The parents of `h`; a hash that is not a key has none. */
  function Parents(E: Edges, h: Hash): seq<Hash> {
    if h in E then E[h] else []
  }

  predicate HasEdge(E: Edges, a: Hash, b: Hash) {
    b in Parents(E, a)
  }

  /** The same parents, in the same order, for every node but `h`. */
  ghost predicate AgreeOutside(E: Edges, F: Edges, h: Hash) {
    forall x :: x != h ==> Parents(E, x) == Parents(F, x)
  }

  ghost predicate NobodysParent(E: Edges, h: Hash) {
    forall a :: !HasEdge(E, a, h)
  }

  /** `b` is reached from `a` by following exactly `n` edges. */
  ghost predicate Walk(E: Edges, a: Hash, b: Hash, n: nat)
    decreases n
  {
    if n == 0 then a == b else exists c :: HasEdge(E, a, c) && Walk(E, c, b, n - 1)
  }

  /** `b` is a proper ancestor of `a`: reached by one or more edges. */
  ghost predicate Reaches(E: Edges, a: Hash, b: Hash) {
    exists n: nat :: n > 0 && Walk(E, a, b, n)
  }

  ghost predicate ReachesOrEqual(E: Edges, a: Hash, b: Hash) {
    exists n: nat :: Walk(E, a, b, n)
  }

  ghost predicate Acyclic(E: Edges) {
    forall x :: !Reaches(E, x, x)
  }

  /** The graph with the edge `from -> to` appended to the parents of `from`. */
  function WithEdge(E: Edges, from: Hash, to: Hash): Edges {
    E[from := Parents(E, from) + [to]]
  }

  lemma WithEdgeEdges(E: Edges, from: Hash, to: Hash)
    ensures ExtendsBy(E, WithEdge(E, from, to), from, to)
  {
  }

  lemma EdgeReaches(E: Edges, a: Hash, b: Hash)
    requires HasEdge(E, a, b)
    ensures Walk(E, a, b, 1) && Reaches(E, a, b)
  {
    assert Walk(E, b, b, 0);
    assert Walk(E, a, b, 1);
  }

  lemma {:induction false} WalkJoin(E: Edges, a: Hash, b: Hash, c: Hash, m: nat, n: nat)
    requires Walk(E, a, b, m) && Walk(E, b, c, n)
    ensures Walk(E, a, c, m + n)
    decreases m
  {
    if m > 0 {
      var x :| HasEdge(E, a, x) && Walk(E, x, b, m - 1);
      WalkJoin(E, x, b, c, m - 1, n);
    }
  }

  /** The last edge of a walk. */
  lemma {:induction false} WalkLast(E: Edges, a: Hash, b: Hash, n: nat) returns (z: Hash)
    requires n > 0 && Walk(E, a, b, n)
    ensures Walk(E, a, z, n - 1) && HasEdge(E, z, b)
    decreases n
  {
    if n == 1 {
      z := a;
    } else {
      var x :| HasEdge(E, a, x) && Walk(E, x, b, n - 1);
      z := WalkLast(E, x, b, n - 1);
    }
  }

  lemma ReachesJoin(E: Edges, a: Hash, b: Hash, c: Hash)
    requires Reaches(E, a, b) && ReachesOrEqual(E, b, c)
    ensures Reaches(E, a, c)
  {
    var m: nat :| m > 0 && Walk(E, a, b, m);
    var n: nat :| Walk(E, b, c, n);
    WalkJoin(E, a, b, c, m, n);
  }

  /** Only edges matter: a larger graph has every walk of a smaller one. */
  lemma {:induction false} WalkMonotone(E: Edges, E': Edges, a: Hash, b: Hash, n: nat)
    requires forall x, y :: HasEdge(E, x, y) ==> HasEdge(E', x, y)
    requires Walk(E, a, b, n)
    ensures Walk(E', a, b, n)
    decreases n
  {
    if n > 0 {
      var c :| HasEdge(E, a, c) && Walk(E, c, b, n - 1);
      WalkMonotone(E, E', c, b, n - 1);
    }
  }

  /** `E'` has the edges of `E` and `from -> to`. */
  ghost predicate ExtendsBy(E: Edges, E': Edges, from: Hash, to: Hash) {
    forall a, b :: HasEdge(E', a, b) <==> HasEdge(E, a, b) || (a == from && b == to)
  }

  /** A walk in the extended graph either existed before or passes through the new edge. */
  lemma {:induction false} WalkThroughNewEdge(E: Edges, E': Edges, from: Hash, to: Hash, a: Hash, b: Hash, n: nat)
    requires ExtendsBy(E, E', from, to)
    requires Walk(E', a, b, n)
    ensures Walk(E, a, b, n) || (ReachesOrEqual(E, a, from) && ReachesOrEqual(E, to, b))
    decreases n
  {
    if n > 0 {
      var c :| HasEdge(E', a, c) && Walk(E', c, b, n - 1);
      WalkThroughNewEdge(E, E', from, to, c, b, n - 1);
      if a == from && c == to {
        assert Walk(E, a, from, 0);
      } else if !Walk(E, c, b, n - 1) {
        var i: nat :| Walk(E, c, from, i);
        assert Walk(E, a, from, i + 1);
      }
    }
  }

  /** Adding an edge to an acyclic graph closes a cycle exactly when its head already reaches its tail. */
  lemma WithEdgeAcyclic(E: Edges, from: Hash, to: Hash)
    requires Acyclic(E)
    ensures Acyclic(WithEdge(E, from, to)) <==> from != to && !Reaches(E, to, from)
  {
    var E' := WithEdge(E, from, to);
    WithEdgeEdges(E, from, to);
    EdgeReaches(E', from, to);
    if from != to && !Reaches(E, to, from) {
      forall x ensures !Reaches(E', x, x) {
        if Reaches(E', x, x) {
          var n: nat :| n > 0 && Walk(E', x, x, n);
          WalkThroughNewEdge(E, E', from, to, x, x, n);
          assert !Reaches(E, x, x);
          var i: nat, j: nat :| Walk(E, x, from, i) && Walk(E, to, x, j);
          WalkJoin(E, to, x, from, j, i);
          assert false;
        }
      }
    } else if from == to {
      assert Reaches(E', from, from);
    } else {
      var n: nat :| n > 0 && Walk(E, to, from, n);
      WalkMonotone(E, E', to, from, n);
      ReachesJoin(E', from, to, from);
      assert Reaches(E', from, from);
    }
  }

  lemma NobodysParentUnreachable(E: Edges, a: Hash, h: Hash)
    requires NobodysParent(E, h)
    ensures !Reaches(E, a, h)
  {
    if Reaches(E, a, h) {
      var n: nat :| n > 0 && Walk(E, a, h, n);
      var z := WalkLast(E, a, h, n);
      assert false;
    }
  }
}
