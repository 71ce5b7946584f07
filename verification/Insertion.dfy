/** What inserting edges does to the transaction graph: single edges, a transaction's parents, whole runs. */
module Insertion {
  import opened Bytes
  import opened Graph
  import opened Search

  datatype AddOutcome = Added | CycleDetected | EdgeDuplicate

  /** One guarded insertion of the edge `from -> to`. */
  function TryAdd(E: Edges, from: Hash, to: Hash): (Edges, AddOutcome) {
    if from == to || Find(E, to, from, {}, 0).0 then
      (E, CycleDetected)
    else if HasEdge(E, from, to) then
      (E, EdgeDuplicate)
    else
      (WithEdge(E, from, to), Added)
  }

  /**
   What makes the guard exact: nothing can lead back to `from`, or the search from `to` has no
   simple path long enough to be cut off.
   */
  ghost predicate SearchComplete(E: Edges, from: Hash, to: Hash) {
    NobodysParent(E, from) || ShortPaths(E, to)
  }

  lemma FindExactWhenComplete(E: Edges, from: Hash, to: Hash)
    requires SearchComplete(E, from, to)
    ensures Find(E, to, from, {}, 0).0 <==> Reaches(E, to, from)
  {
    if NobodysParent(E, from) {
      NobodysParentUnreachable(E, to, from);
      if Find(E, to, from, {}, 0).0 {
        FindSound(E, to, from, {}, 0);
      }
    } else {
      FindExactShortPaths(E, to, from);
    }
  }

  /** Each outcome is given exactly when its meaning holds; acyclicity of `E` is not assumed. */
  lemma AddOutcomeExact(E: Edges, from: Hash, to: Hash)
    requires SearchComplete(E, from, to)
    ensures var out := TryAdd(E, from, to).1;
            && (out == CycleDetected <==> from == to || Reaches(E, to, from))
            && (out == EdgeDuplicate <==> from != to && !Reaches(E, to, from) && HasEdge(E, from, to))
  {
    FindExactWhenComplete(E, from, to);
  }

  /** On an acyclic graph exactly the edges that would close a cycle are refused, and the graph stays acyclic. */
  lemma AddKeepsAcyclic(E: Edges, from: Hash, to: Hash)
    requires Acyclic(E) && SearchComplete(E, from, to)
    ensures Acyclic(TryAdd(E, from, to).0)
    ensures TryAdd(E, from, to).1 == CycleDetected <==> !Acyclic(WithEdge(E, from, to))
  {
    AddOutcomeExact(E, from, to);
    WithEdgeAcyclic(E, from, to);
  }

  /** At any size, an edge refused as a cycle on an acyclic graph really would have closed one. */
  lemma RefusalSound(E: Edges, from: Hash, to: Hash)
    requires Acyclic(E) && TryAdd(E, from, to).1 == CycleDetected
    ensures !Acyclic(WithEdge(E, from, to))
  {
    WithEdgeAcyclic(E, from, to);
    if from != to {
      FindSound(E, to, from, {}, 0);
    }
  }

  // ---- The size bound is tight --------------------------------------------------------------

  /** Every insertion into every acyclic graph with `n` keys leaves it acyclic. */
  ghost predicate GuardedAtSize(n: nat) {
    forall E: Edges, from: Hash, to: Hash ::
      |E| == n && Acyclic(E) ==> Acyclic(TryAdd(E, from, to).0)
  }

  /** The guard keeps graphs with `n` keys acyclic exactly up to 201 keys. */
  lemma GuardBound(n: nat)
    requires n < Pow256(32)
    ensures GuardedAtSize(n) <==> n <= 201
  {
    if n <= CYCLE_CHECK_DEPTH + 1 {
      forall E: Edges, from: Hash, to: Hash | |E| == n && Acyclic(E)
        ensures Acyclic(TryAdd(E, from, to).0)
      {
        FindExact(E, to, from);
        AddKeepsAcyclic(E, from, to);
      }
    } else {
      var names := DistinctNames(n + 1);
      ClosingEdgeAccepted(names);
      assert |Chain(names)| == n;
    }
  }

  /** A chain with at least 202 keys accepts the edge that closes it into a cycle. */
  lemma {:induction false} ClosingEdgeAccepted(names: seq<Hash>)
    requires Distinct(names) && |names| > 202
    ensures var E := Chain(names);
            var from, to := names[|names| - 1], names[0];
            && |E| == |names| - 1
            && Acyclic(E)
            && TryAdd(E, from, to).1 == Added
            && !Acyclic(TryAdd(E, from, to).0)
  {
    var E := Chain(names);
    var from, to := names[|names| - 1], names[0];
    ChainShape(names);
    ChainAcyclic(names);
    ChainEndMissed(names, 0, {});
    ChainReaches(names, 0);
    assert Reaches(E, to, from);
    WithEdgeAcyclic(E, from, to);
  }

  /** Every edge that closes a cycle over a walk of length `n` is refused on an acyclic graph. */
  ghost predicate GuardedAtLength(n: nat) {
    forall E: Edges, from: Hash, to: Hash ::
      Acyclic(E) && Walk(E, to, from, n) ==> TryAdd(E, from, to).1 == CycleDetected
  }

  /** On every graph, cyclic or not and of any size, edges that close a cycle of at most three nodes are refused. */
  lemma ShortCyclesRefused(E: Edges, from: Hash, to: Hash, n: nat)
    requires n <= 2 && Walk(E, to, from, n)
    ensures TryAdd(E, from, to).1 == CycleDetected
  {
    if n > 0 {
      NearAncestorsFound(E, to, from, n);
    }
  }

  lemma ShortcutAccepted(names: seq<Hash>)
    requires Distinct(names) && |names| > CYCLE_CHECK_DEPTH + 2
    ensures TryAdd(Shortcut(names), names[|names| - 1], names[0]).1 == Added
  {
    ShortcutMissed(names);
    ChainShape(names);
    assert Parents(Shortcut(names), names[|names| - 1]) == [];
  }

  /** From four nodes on one can slip through: the search hides the short way back from itself. */
  lemma ShortCycleAccepted(names: seq<Hash>, n: nat) returns (E: Edges, from: Hash, to: Hash)
    requires Distinct(names) && n > 2 && |names| == 200 + n
    ensures E == Shortcut(names) && from == names[|names| - 1] && to == names[0]
    ensures |E| == 199 + n && Acyclic(E) && Walk(E, to, from, n)
    ensures TryAdd(E, from, to).1 == Added
  {
    E, from, to := Shortcut(names), names[|names| - 1], names[0];
    ShortcutAccepted(names);
    ShortcutAcyclic(names);
    ShortcutShape(names);
    ShortcutNear(names, n);
  }

  /** Edges that close a cycle are always refused exactly if the cycle has at most three nodes. */
  lemma GuardLength(n: nat)
    requires 200 + n <= Pow256(32)
    ensures GuardedAtLength(n) <==> n <= 2
  {
    if n <= 2 {
      forall E: Edges, from: Hash, to: Hash | Acyclic(E) && Walk(E, to, from, n)
        ensures TryAdd(E, from, to).1 == CycleDetected
      {
        ShortCyclesRefused(E, from, to, n);
      }
    } else {
      var names := DistinctNames(CYCLE_CHECK_DEPTH + n);
      var E, from, to := ShortCycleAccepted(names, n);
      assert !GuardedAtLength(n);
    }
  }

  /** Runs of insertions: the key set only grows, so a run that ends with at most 201 keys is guarded throughout. */
  function AddAll(E: Edges, calls: seq<(Hash, Hash)>): Edges
    decreases calls
  {
    if calls == [] then E else AddAll(TryAdd(E, calls[0].0, calls[0].1).0, calls[1..])
  }

  lemma {:induction false} AddAllGrows(E: Edges, calls: seq<(Hash, Hash)>)
    ensures E.Keys <= AddAll(E, calls).Keys
    decreases calls
  {
    if calls != [] {
      AddAllGrows(TryAdd(E, calls[0].0, calls[0].1).0, calls[1..]);
    }
  }

  lemma {:induction false} AddAllAcyclic(E: Edges, calls: seq<(Hash, Hash)>)
    requires Acyclic(E) && |AddAll(E, calls)| <= 201
    ensures Acyclic(AddAll(E, calls))
    decreases calls
  {
    if calls != [] {
      AddAllGrows(E, calls);
      CardinalityMonotone(E.Keys, AddAll(E, calls).Keys);
      FindExact(E, calls[0].1, calls[0].0);
      AddKeepsAcyclic(E, calls[0].0, calls[0].1);
      AddAllAcyclic(TryAdd(E, calls[0].0, calls[0].1).0, calls[1..]);
    }
  }

  // ---- A confirmed transaction and its parents -----------------------------------------------

  /** Inserts an edge to each parent in turn; duplicates are skipped, a cycle stops the run. */
  function Advance(E: Edges, tx: Hash, parents: seq<Hash>): (Edges, bool)
    decreases parents
  {
    if parents == [] then
      (E, true)
    else
      var (E', out) := TryAdd(E, tx, parents[0]);
      if out == CycleDetected then (E', false) else Advance(E', tx, parents[1..])
  }

  /** `E'` has the edges of `E` and one from `tx` to each of `added`. */
  ghost predicate ExtendsByAll(E: Edges, E': Edges, tx: Hash, added: seq<Hash>) {
    forall a, b :: HasEdge(E', a, b) <==> HasEdge(E, a, b) || (a == tx && b in added)
  }

  /** How many parents are handled before the run stops. */
  function Handled(E: Edges, tx: Hash, parents: seq<Hash>): (i: nat)
    ensures i <= |parents|
    decreases parents
  {
    if parents == [] || TryAdd(E, tx, parents[0]).1 == CycleDetected then 0
    else 1 + Handled(TryAdd(E, tx, parents[0]).0, tx, parents[1..])
  }

  /**
   The edges added are those to a prefix of `parents`: all of them on success, and on failure
   those before the first parent whose edge is refused as a cycle.
   */
  lemma AdvanceAddsPrefix(E: Edges, tx: Hash, parents: seq<Hash>)
    ensures var (E', ok) := Advance(E, tx, parents);
            var i := Handled(E, tx, parents);
            && ExtendsByAll(E, E', tx, parents[..i])
            && Advance(E, tx, parents[..i]) == (E', true)
            && (ok <==> i == |parents|)
            && (!ok ==> TryAdd(E', tx, parents[i]).1 == CycleDetected)
  {
    HandledStops(E, tx, parents);
    HandledPrefix(E, tx, parents);
    HandledEdges(E, tx, parents);
  }

  lemma {:induction false} HandledStops(E: Edges, tx: Hash, parents: seq<Hash>)
    ensures var (E', ok) := Advance(E, tx, parents);
            var i := Handled(E, tx, parents);
            && (ok <==> i == |parents|)
            && (!ok ==> TryAdd(E', tx, parents[i]).1 == CycleDetected)
    decreases parents
  {
    if parents != [] && TryAdd(E, tx, parents[0]).1 != CycleDetected {
      HandledStops(TryAdd(E, tx, parents[0]).0, tx, parents[1..]);
    }
  }

  lemma {:induction false} HandledPrefix(E: Edges, tx: Hash, parents: seq<Hash>)
    ensures Advance(E, tx, parents[..Handled(E, tx, parents)]) == (Advance(E, tx, parents).0, true)
    decreases parents
  {
    if parents != [] && TryAdd(E, tx, parents[0]).1 != CycleDetected {
      var E1 := TryAdd(E, tx, parents[0]).0;
      HandledPrefix(E1, tx, parents[1..]);
      var i := Handled(E, tx, parents);
      assert parents[..i][0] == parents[0];
      assert parents[..i][1..] == parents[1..][..i - 1];
    }
  }

  lemma {:induction false} HandledEdges(E: Edges, tx: Hash, parents: seq<Hash>)
    ensures ExtendsByAll(E, Advance(E, tx, parents).0, tx, parents[..Handled(E, tx, parents)])
    decreases parents
  {
    if parents != [] && TryAdd(E, tx, parents[0]).1 != CycleDetected {
      var E1 := TryAdd(E, tx, parents[0]).0;
      var E2, added := Advance(E1, tx, parents[1..]).0, parents[1..][..Handled(E1, tx, parents[1..])];
      assert Advance(E, tx, parents).0 == E2 && parents[..Handled(E, tx, parents)] == [parents[0]] + added;
      HandledEdges(E1, tx, parents[1..]);
      AddedOrPresent(E, tx, parents[0]);
      PrependAdded(E, E1, E2, tx, parents[0], added);
    }
  }

  lemma AddedOrPresent(E: Edges, tx: Hash, p: Hash)
    requires TryAdd(E, tx, p).1 != CycleDetected
    ensures var E1 := TryAdd(E, tx, p).0;
            ExtendsBy(E, E1, tx, p) || (E1 == E && HasEdge(E, tx, p))
  {
    WithEdgeEdges(E, tx, p);
  }

  lemma PrependAdded(E: Edges, E1: Edges, E2: Edges, tx: Hash, p: Hash, added: seq<Hash>)
    requires ExtendsBy(E, E1, tx, p) || (E1 == E && HasEdge(E, tx, p))
    requires ExtendsByAll(E1, E2, tx, added)
    ensures ExtendsByAll(E, E2, tx, [p] + added)
  {
  }

  /** A transaction no other one builds on yet, and that does not name itself as a parent. */
  ghost predicate Fresh(E: Edges, tx: Hash, parents: seq<Hash>) {
    NobodysParent(E, tx) && tx !in parents
  }

  /** Fresh transactions never break the graph, however large it is and however long the parent list. */
  lemma {:induction false} AdvanceFresh(E: Edges, tx: Hash, parents: seq<Hash>)
    requires Fresh(E, tx, parents)
    ensures var (E', ok) := Advance(E, tx, parents);
            && ok
            && ExtendsByAll(E, E', tx, parents)
            && NobodysParent(E', tx)
            && (Acyclic(E) ==> Acyclic(E'))
    decreases parents
  {
    if parents != [] {
      var (E1, out) := TryAdd(E, tx, parents[0]);
      AddOutcomeExact(E, tx, parents[0]);
      NobodysParentUnreachable(E, parents[0], tx);
      WithEdgeEdges(E, tx, parents[0]);
      if Acyclic(E) {
        AddKeepsAcyclic(E, tx, parents[0]);
      }
      AdvanceFresh(E1, tx, parents[1..]);
      assert parents == [parents[0]] + parents[1..];
    }
  }

  /**
   Repeating a call changes nothing and answers the same: at any size, with cycles or without,
   after a success and after a failure.
   */
  lemma AdvanceIdempotent(E: Edges, tx: Hash, parents: seq<Hash>)
    ensures Advance(Advance(E, tx, parents).0, tx, parents) == Advance(E, tx, parents)
  {
    AdvanceElsewhere(E, tx, parents);
    AdvanceAgain(E, Advance(E, tx, parents).0, tx, parents);
  }

  /** Only the parents of `tx` change, and none is dropped. */
  lemma {:induction false} AdvanceElsewhere(E: Edges, tx: Hash, parents: seq<Hash>)
    ensures AgreeOutside(E, Advance(E, tx, parents).0, tx)
    ensures forall b :: HasEdge(E, tx, b) ==> HasEdge(Advance(E, tx, parents).0, tx, b)
    decreases parents
  {
    if parents != [] {
      AdvanceElsewhere(TryAdd(E, tx, parents[0]).0, tx, parents[1..]);
    }
  }

  /** On a graph that has all the edges a run adds, the run meets only duplicates and stops where it did. */
  lemma {:induction false} AdvanceAgain(E: Edges, F: Edges, tx: Hash, parents: seq<Hash>)
    requires AgreeOutside(E, F, tx)
    requires forall b :: HasEdge(Advance(E, tx, parents).0, tx, b) ==> HasEdge(F, tx, b)
    ensures Advance(F, tx, parents) == (F, Advance(E, tx, parents).1)
    decreases parents
  {
    if parents != [] {
      var p := parents[0];
      var (E1, out) := TryAdd(E, tx, p);
      if p != tx {
        FindSame(E, F, p, tx, {}, 0);
      }
      if out != CycleDetected {
        AdvanceElsewhere(E1, tx, parents[1..]);
        assert HasEdge(E1, tx, p);
        AdvanceAgain(E1, F, tx, parents[1..]);
      }
    }
  }

  /** A run of confirmed transactions, each fresh when it is confirmed, keeps the graph acyclic at any size. */
  function AdvanceAll(E: Edges, txs: seq<(Hash, seq<Hash>)>): Edges
    decreases txs
  {
    if txs == [] then E else AdvanceAll(Advance(E, txs[0].0, txs[0].1).0, txs[1..])
  }

  ghost predicate AllFresh(E: Edges, txs: seq<(Hash, seq<Hash>)>)
    decreases txs
  {
    txs != [] ==> Fresh(E, txs[0].0, txs[0].1) && AllFresh(Advance(E, txs[0].0, txs[0].1).0, txs[1..])
  }

  lemma {:induction false} AdvanceAllAcyclic(E: Edges, txs: seq<(Hash, seq<Hash>)>)
    requires Acyclic(E) && AllFresh(E, txs)
    ensures Acyclic(AdvanceAll(E, txs))
    decreases txs
  {
    if txs != [] {
      AdvanceFresh(E, txs[0].0, txs[0].1);
      AdvanceAllAcyclic(Advance(E, txs[0].0, txs[0].1).0, txs[1..]);
    }
  }

  // ---- Tips ----------------------------------------------------------------------------------

  /** The keys that are nobody's parent. */
  ghost predicate IsTip(E: Edges, h: Hash) {
    h in E && NobodysParent(E, h)
  }

  /** Confirming a fresh transaction replaces the tips it builds on by itself. */
  lemma AdvanceTips(E: Edges, tx: Hash, parents: seq<Hash>, h: Hash)
    requires Fresh(E, tx, parents) && parents != []
    ensures IsTip(Advance(E, tx, parents).0, h) <==> (IsTip(E, h) && h !in parents) || h == tx
  {
    var (E', ok) := Advance(E, tx, parents);
    AdvanceFresh(E, tx, parents);
    AdvanceKeys(E, tx, parents);
    assert HasEdge(E', tx, parents[0]);
    if h in parents {
      assert HasEdge(E', tx, h);
    } else if NobodysParent(E, h) {
      assert NobodysParent(E', h);
    } else {
      var a :| HasEdge(E, a, h);
      assert HasEdge(E', a, h);
    }
  }

  lemma {:induction false} AdvanceKeys(E: Edges, tx: Hash, parents: seq<Hash>)
    ensures E.Keys <= Advance(E, tx, parents).0.Keys <= E.Keys + {tx}
    decreases parents
  {
    if parents != [] {
      AdvanceKeys(TryAdd(E, tx, parents[0]).0, tx, parents[1..]);
    }
  }

  ghost function Descendants(E: Edges, h: Hash): set<Hash> {
    set k | k in E.Keys && Reaches(E, k, h)
  }

  /**
   The tips cover the graph: below every node of an acyclic graph that is a key or somebody's
   parent there is a tip it is equal to or an ancestor of.
   */
  lemma TipsCover(E: Edges, h: Hash) returns (tip: Hash)
    requires Acyclic(E) && (h in E || !NobodysParent(E, h))
    ensures IsTip(E, tip) && ReachesOrEqual(E, tip, h)
    decreases Descendants(E, h)
  {
    if NobodysParent(E, h) {
      tip := h;
      assert Walk(E, h, h, 0);
    } else {
      var child :| HasEdge(E, child, h);
      EdgeReaches(E, child, h);
      assert !Reaches(E, child, child);
      forall k | k in Descendants(E, child) ensures k in Descendants(E, h) {
        ReachesJoin(E, k, child, h);
      }
      assert child in Descendants(E, h) && child !in Descendants(E, child);
      tip := TipsCover(E, child);
      var m: nat :| Walk(E, tip, child, m);
      WalkJoin(E, tip, child, h, m, 1);
    }
  }

  /** A non-empty acyclic graph has a tip. */
  lemma TipExists(E: Edges) returns (tip: Hash)
    requires Acyclic(E) && E != map[]
    ensures IsTip(E, tip)
  {
    var h :| h in E;
    tip := TipsCover(E, h);
  }
}
