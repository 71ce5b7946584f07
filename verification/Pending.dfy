/**
 Collecting witness signatures at the originator. Handlers run concurrently; each of their
 critical sections is one atomic step here, and every interleaving of the steps is covered.
 */
module Pending {
  import opened Bytes
  import opened Types
  import opened Crypto
  import opened Quorum

  /** A pending transaction with the signatures that arrived so far, oldest first. */
  datatype Meta = Meta(tx: Transaction, sigs: seq<WitnessSignature>, confirmed: bool)

  function NewMeta(tx: Transaction): Meta {
    Meta(tx, [], false)
  }

  /** The critical section under the entry's own lock: append, and claim the confirmation at the third signature. */
  function Collect(m: Meta, sig: WitnessSignature): (Meta, bool) {
    var sigs := m.sigs + [sig];
    var claim := |sigs| == QUORUM_K && !m.confirmed;
    (Meta(m.tx, sigs, m.confirmed || claim), claim)
  }

  class PendingMeta {
    const tx: Transaction
    var sigs: seq<WitnessSignature>
    var confirmed: bool

    constructor (tx: Transaction)
      ensures Value() == NewMeta(tx)
    {
      this.tx := tx;
      sigs := [];
      confirmed := false;
    }

    function Value(): Meta
      reads this
    {
      Meta(tx, sigs, confirmed)
    }

    method Append(sig: WitnessSignature) returns (shouldConfirm: bool, sigsCopy: seq<WitnessSignature>)
      modifies this
      ensures (Value(), shouldConfirm) == Collect(old(Value()), sig)
      ensures sigsCopy == sigs
    {
      sigs := sigs + [sig];
      var count := |sigs|;
      shouldConfirm := count == QUORUM_K && !confirmed;
      if shouldConfirm {
        confirmed := true;
      }
      sigsCopy := sigs;
    }
  }

  /** Where a signature handler stands between its critical sections. */
  datatype Handler =
    | Waiting(txHash: Hash, sig: WitnessSignature)
    | Found(entry: nat, txHash: Hash, sig: WitnessSignature)
    | Claimed(entry: nat, txHash: Hash, copy: seq<WitnessSignature>)
    | Removed(entry: nat, copy: seq<WitnessSignature>)
    | Done

  /** A call of the confirmation routine: for which entry, with which signatures. */
  datatype Confirmation = Confirmation(entry: nat, sigs: seq<WitnessSignature>)

  /** Entries in the order of their creation, the table from hashes to entries, handlers, confirmations started. */
  datatype Desk = Desk(
    entries: seq<Meta>, table: map<Hash, nat>, handlers: seq<Handler>, started: seq<Confirmation>)

  const EMPTY: Desk := Desk([], map[], [], [])

  /** A step of the node: a transaction is sent, a signature packet arrives, or handler `h` runs its next section. */
  datatype DeskStep = Send(tx: Transaction) | Arrive(txHash: Hash, sig: WitnessSignature) | Run(h: nat)

  function RunHandler(d: Desk, h: nat): Desk
    requires h < |d.handlers|
  {
    match d.handlers[h]
    case Waiting(txHash, sig) =>
      if txHash in d.table then d.(handlers := d.handlers[h := Found(d.table[txHash], txHash, sig)])
      else d.(handlers := d.handlers[h := Done])
    case Found(e, txHash, sig) =>
      if e < |d.entries| then
        var (m, claim) := Collect(d.entries[e], sig);
        d.(entries := d.entries[e := m],
           handlers := d.handlers[h := if claim then Claimed(e, txHash, m.sigs) else Done])
      else
        d
    case Claimed(e, txHash, copy) => d.(table := d.table - {txHash}, handlers := d.handlers[h := Removed(e, copy)])
    case Removed(e, copy) => d.(started := d.started + [Confirmation(e, copy)], handlers := d.handlers[h := Done])
    case Done => d
  }

  function DeskNext(d: Desk, step: DeskStep): Desk {
    match step
    case Send(tx) => d.(entries := d.entries + [NewMeta(tx)], table := d.table[tx.hash := |d.entries|])
    case Arrive(txHash, sig) => d.(handlers := d.handlers + [Waiting(txHash, sig)])
    case Run(h) => if h < |d.handlers| then RunHandler(d, h) else d
  }

  function DeskRun(d: Desk, steps: seq<DeskStep>): Desk
    decreases |steps|
  {
    if steps == [] then d else DeskRun(DeskNext(d, steps[0]), steps[1..])
  }

  // ---- The invariant --------------------------------------------------------------------------

  /** This handler won the confirmation of entry `e` and has not started it yet. */
  predicate Holds(x: Handler, e: nat) {
    (x.Claimed? || x.Removed?) && x.entry == e
  }

  /** The first three signatures of an entry. */
  function FirstThree(m: Meta): seq<WitnessSignature>
    requires |m.sigs| >= QUORUM_K
  {
    m.sigs[..QUORUM_K]
  }

  ghost predicate References(d: Desk) {
    && (forall k :: k in d.table ==> d.table[k] < |d.entries| && d.entries[d.table[k]].tx.hash == k)
    && (forall h :: 0 <= h < |d.handlers| && d.handlers[h].Found? ==>
          d.handlers[h].entry < |d.entries| && d.entries[d.handlers[h].entry].tx.hash == d.handlers[h].txHash)
    && (forall h :: 0 <= h < |d.handlers| && d.handlers[h].Claimed? ==>
          d.handlers[h].entry < |d.entries| && d.entries[d.handlers[h].entry].tx.hash == d.handlers[h].txHash)
  }

  /** An entry is marked exactly from its third signature on. */
  ghost predicate Marked(d: Desk) {
    forall e :: 0 <= e < |d.entries| ==> (d.entries[e].confirmed <==> |d.entries[e].sigs| >= QUORUM_K)
  }

  /** A won confirmation, held or started, is for a marked entry and carries its first three signatures. */
  ghost predicate Backed(d: Desk) {
    && (forall h :: 0 <= h < |d.handlers| && (d.handlers[h].Claimed? || d.handlers[h].Removed?) ==>
          IsFirstThree(d, d.handlers[h].entry, d.handlers[h].copy))
    && (forall i :: 0 <= i < |d.started| ==> IsFirstThree(d, d.started[i].entry, d.started[i].sigs))
  }

  ghost predicate IsFirstThree(d: Desk, e: nat, sigs: seq<WitnessSignature>) {
    e < |d.entries| && |d.entries[e].sigs| >= QUORUM_K && sigs == FirstThree(d.entries[e])
  }

  /** No entry's confirmation is won twice. */
  ghost predicate WonOnce(d: Desk) {
    && (forall g, h, e :: 0 <= g < h < |d.handlers| && Holds(d.handlers[g], e) ==> !Holds(d.handlers[h], e))
    && (forall h, i :: 0 <= h < |d.handlers| && 0 <= i < |d.started| ==> !Holds(d.handlers[h], d.started[i].entry))
    && (forall i, j :: 0 <= i < j < |d.started| ==> d.started[i].entry != d.started[j].entry)
  }

  ghost predicate IsStarted(d: Desk, e: nat) {
    exists i :: 0 <= i < |d.started| && d.started[i].entry == e
  }

  ghost predicate IsWon(d: Desk, e: nat) {
    (exists h :: 0 <= h < |d.handlers| && Holds(d.handlers[h], e)) || IsStarted(d, e)
  }

  /** No marked entry's confirmation is lost. */
  ghost predicate NoneLost(d: Desk) {
    forall e :: 0 <= e < |d.entries| && d.entries[e].confirmed ==> IsWon(d, e)
  }

  /** An entry whose confirmation is about to start, or has started, is no longer in the table. */
  ghost predicate Withdrawn(d: Desk) {
    && (forall h, k :: 0 <= h < |d.handlers| && d.handlers[h].Removed? && k in d.table ==>
          d.table[k] != d.handlers[h].entry)
    && (forall i, k :: 0 <= i < |d.started| && k in d.table ==> d.table[k] != d.started[i].entry)
  }

  ghost predicate Invariant(d: Desk) {
    References(d) && Marked(d) && Backed(d) && WonOnce(d) && NoneLost(d)
  }

  // ---- Every step keeps it --------------------------------------------------------------------

  lemma SendKeeps(d: Desk, tx: Transaction)
    requires Invariant(d)
    ensures Invariant(DeskNext(d, Send(tx)))
  {
    var d' := DeskNext(d, Send(tx));
    forall e | 0 <= e < |d'.entries| && d'.entries[e].confirmed ensures IsWon(d', e) {
      assert IsWon(d, e);
    }
  }

  lemma ArriveKeeps(d: Desk, txHash: Hash, sig: WitnessSignature)
    requires Invariant(d)
    ensures Invariant(DeskNext(d, Arrive(txHash, sig)))
  {
    var d' := DeskNext(d, Arrive(txHash, sig));
    assert forall h :: 0 <= h < |d.handlers| ==> d'.handlers[h] == d.handlers[h];
    forall e | 0 <= e < |d'.entries| && d'.entries[e].confirmed ensures IsWon(d', e) {
      StillWon(d, d', e, |d.handlers|);
    }
  }

  /** Changing a handler that holds nothing for `e` does not lose it. */
  lemma StillWon(d: Desk, d': Desk, e: nat, h: nat)
    requires IsWon(d, e) && |d.handlers| <= |d'.handlers|
    requires forall g :: 0 <= g < |d.handlers| && g != h ==> d'.handlers[g] == d.handlers[g]
    requires h < |d.handlers| && Holds(d.handlers[h], e) ==> Holds(d'.handlers[h], e)
    requires d.started <= d'.started
    ensures IsWon(d', e)
  {
    if g :| 0 <= g < |d.handlers| && Holds(d.handlers[g], e) {
      assert Holds(d'.handlers[g], e);
    } else {
      var i :| 0 <= i < |d.started| && d.started[i].entry == e;
      assert d'.started[i].entry == e;
    }
  }

  lemma LookupKeeps(d: Desk, h: nat)
    requires Invariant(d) && h < |d.handlers| && d.handlers[h].Waiting?
    ensures Invariant(RunHandler(d, h))
  {
    var d' := RunHandler(d, h);
    forall e | 0 <= e < |d'.entries| && d'.entries[e].confirmed ensures IsWon(d', e) {
      StillWon(d, d', e, h);
    }
  }

  lemma CollectKeeps(d: Desk, h: nat)
    requires Invariant(d) && h < |d.handlers| && d.handlers[h].Found?
    ensures Invariant(RunHandler(d, h))
  {
    var d' := RunHandler(d, h);
    var e0 := d.handlers[h].entry;
    CollectBacked(d, h);
    CollectWonOnce(d, h);
    forall e | 0 <= e < |d'.entries| && d'.entries[e].confirmed ensures IsWon(d', e) {
      if e == e0 && !d.entries[e].confirmed {
        assert Holds(d'.handlers[h], e);
      } else {
        StillWon(d, d', e, h);
      }
    }
  }

  lemma CollectBacked(d: Desk, h: nat)
    requires Invariant(d) && h < |d.handlers| && d.handlers[h].Found?
    ensures Backed(RunHandler(d, h))
  {
    var d' := RunHandler(d, h);
    var e0, sig := d.handlers[h].entry, d.handlers[h].sig;
    forall e: nat, sigs | IsFirstThree(d, e, sigs) ensures IsFirstThree(d', e, sigs) {
      if e == e0 {
        assert (d.entries[e].sigs + [sig])[..QUORUM_K] == d.entries[e].sigs[..QUORUM_K];
      }
    }
    var m := Collect(d.entries[e0], sig).0;
    if |m.sigs| == QUORUM_K {
      assert m.sigs[..QUORUM_K] == m.sigs;
    }
  }

  /** A claim is made only while the entry is unmarked, so nobody else holds or has started it. */
  lemma CollectWonOnce(d: Desk, h: nat)
    requires Invariant(d) && h < |d.handlers| && d.handlers[h].Found?
    ensures WonOnce(RunHandler(d, h))
  {
    var d' := RunHandler(d, h);
    var e0 := d.handlers[h].entry;
    if d'.handlers[h].Claimed? {
      assert !d.entries[e0].confirmed;
      assert forall g :: 0 <= g < |d.handlers| ==> !Holds(d.handlers[g], e0);
      forall i | 0 <= i < |d.started| ensures d.started[i].entry != e0 {
        assert IsFirstThree(d, d.started[i].entry, d.started[i].sigs);
      }
    }
  }

  lemma RemoveKeeps(d: Desk, h: nat)
    requires Invariant(d) && h < |d.handlers| && d.handlers[h].Claimed?
    ensures Invariant(RunHandler(d, h))
  {
    var d' := RunHandler(d, h);
    assert forall g, e :: 0 <= g < |d.handlers| ==> (Holds(d'.handlers[g], e) <==> Holds(d.handlers[g], e));
    forall e | 0 <= e < |d'.entries| && d'.entries[e].confirmed ensures IsWon(d', e) {
      StillWon(d, d', e, h);
    }
  }

  lemma StartKeeps(d: Desk, h: nat)
    requires Invariant(d) && h < |d.handlers| && d.handlers[h].Removed?
    ensures Invariant(RunHandler(d, h))
  {
    var d' := RunHandler(d, h);
    var e0 := d.handlers[h].entry;
    assert Holds(d.handlers[h], e0);
    forall e | 0 <= e < |d'.entries| && d'.entries[e].confirmed ensures IsWon(d', e) {
      if e == e0 {
        assert d'.started[|d.started|].entry == e0;
      } else {
        StillWon(d, d', e, h);
      }
    }
  }

  lemma StepKeeps(d: Desk, step: DeskStep)
    requires Invariant(d)
    ensures Invariant(DeskNext(d, step))
  {
    match step
    case Send(tx) => SendKeeps(d, tx);
    case Arrive(txHash, sig) => ArriveKeeps(d, txHash, sig);
    case Run(h) =>
      if h < |d.handlers| {
        match d.handlers[h]
        case Waiting(_, _) => LookupKeeps(d, h);
        case Found(_, _, _) => CollectKeeps(d, h);
        case Claimed(_, _, _) => RemoveKeeps(d, h);
        case Removed(_, _) => StartKeeps(d, h);
        case Done =>
      }
  }

  lemma StepWithdraws(d: Desk, step: DeskStep)
    requires Invariant(d) && Withdrawn(d)
    ensures Withdrawn(DeskNext(d, step))
  {
    if step.Send? {
      assert forall h :: 0 <= h < |d.handlers| && d.handlers[h].Removed? ==>
        IsFirstThree(d, d.handlers[h].entry, d.handlers[h].copy);
      assert forall i :: 0 <= i < |d.started| ==> IsFirstThree(d, d.started[i].entry, d.started[i].sigs);
    }
  }

  lemma {:induction false} RunKeeps(d: Desk, steps: seq<DeskStep>)
    requires Invariant(d) && Withdrawn(d)
    ensures Invariant(DeskRun(d, steps)) && Withdrawn(DeskRun(d, steps))
    decreases |steps|
  {
    if steps != [] {
      StepKeeps(d, steps[0]);
      StepWithdraws(d, steps[0]);
      RunKeeps(DeskNext(d, steps[0]), steps[1..]);
    }
  }

  // ---- What it means --------------------------------------------------------------------------

  /** In every interleaving an entry is confirmed at most once, with exactly its first three signatures, then gone. */
  lemma ConfirmedAtMostOnce(steps: seq<DeskStep>, i: nat)
    requires i < |DeskRun(EMPTY, steps).started|
    ensures var d := DeskRun(EMPTY, steps);
            && IsFirstThree(d, d.started[i].entry, d.started[i].sigs)
            && |d.started[i].sigs| == 3
            && (forall k :: k in d.table ==> d.table[k] != d.started[i].entry)
            && forall j :: 0 <= j < |d.started| && d.started[j].entry == d.started[i].entry ==> j == i
  {
    RunKeeps(EMPTY, steps);
    var d := DeskRun(EMPTY, steps);
    forall j | 0 <= j < |d.started| && d.started[j].entry == d.started[i].entry ensures j == i {
      assert !(j < i) && !(i < j);
    }
  }

  /**
   A started confirmation passes the quorum check exactly if the first three signatures are from three
   different active witnesses, each valid for the transaction and with the nonce lock seen. Later
   signatures cannot make up for a bad one among them.
   */
  lemma QuorumDecidedByFirstThree(scheme: Scheme, active: set<PubKey>, steps: seq<DeskStep>, i: nat)
    requires i < |DeskRun(EMPTY, steps).started|
    ensures var d := DeskRun(EMPTY, steps);
            var c := d.started[i];
            && c.entry < |d.entries| && |d.entries[c.entry].sigs| >= QUORUM_K
            && var m := d.entries[c.entry];
               (QuorumMet(scheme, c.sigs, m.tx.hash, active, QUORUM_K)
                <==> AllCount(scheme, FirstThree(m), m.tx.hash, active) && DistinctSigners(FirstThree(m)))
  {
    ConfirmedAtMostOnce(steps, i);
    var d := DeskRun(EMPTY, steps);
    var c := d.started[i];
    ExactQuorum(scheme, c.sigs, d.entries[c.entry].tx.hash, active);
  }

  // ---- One bad signature is enough to lose a transaction ----------------------------------------

  lemma {:induction false} DeskRunJoin(d: Desk, a: seq<DeskStep>, b: seq<DeskStep>)
    ensures DeskRun(d, a + b) == DeskRun(DeskRun(d, a), b)
    decreases |a|
  {
    if a == [] {
      assert a + b == b;
    } else {
      assert (a + b)[1..] == a[1..] + b;
      DeskRunJoin(DeskNext(d, a[0]), a[1..], b);
    }
  }

  /** A packet arrives as handler `h`, which runs up to the end of the collection. */
  function Handling(txHash: Hash, sig: WitnessSignature, h: nat): seq<DeskStep> {
    [Arrive(txHash, sig), Run(h), Run(h)]
  }

  lemma DeliverCollects(d: Desk, m: Meta, txHash: Hash, sig: WitnessSignature)
    requires d.entries == [m] && d.table == map[txHash := 0]
    ensures var (m', claim) := Collect(m, sig);
            var x := if claim then Claimed(0, txHash, m'.sigs) else Done;
            DeskRun(d, Handling(txHash, sig, |d.handlers|)) == d.(entries := [m'], handlers := d.handlers + [x])
  {
    var h := |d.handlers|;
    var steps := Handling(txHash, sig, h);
    var d1 := d.(handlers := d.handlers + [Waiting(txHash, sig)]);
    var d2 := d.(handlers := d.handlers + [Found(0, txHash, sig)]);
    assert d1.handlers[h := Found(0, txHash, sig)] == d2.handlers;
    assert RunHandler(d1, h) == d2;
    var d3 := RunHandler(d2, h);
    assert d2.entries[0 := d3.entries[0]] == [d3.entries[0]];
    assert steps[1..] == [Run(h), Run(h)] && steps[1..][1..] == [Run(h)] && steps[1..][1..][1..] == [];
    assert DeskRun(d2, [Run(h)]) == DeskRun(d3, []);
    assert DeskRun(d1, [Run(h), Run(h)]) == DeskRun(d2, [Run(h)]);
  }

  /** The third signature claims, with one bad and two good ones; the fourth is still collected, then the claim runs. */
  function LateGoodRun(tx: Transaction, bad: WitnessSignature, good: seq<WitnessSignature>): seq<DeskStep>
    requires |good| == 3
  {
    [Send(tx)] + Handling(tx.hash, bad, 0) + Handling(tx.hash, good[0], 1) + Handling(tx.hash, good[1], 2)
    + Handling(tx.hash, good[2], 3) + [Run(2), Run(2)]
  }

  /** What the run ends in. */
  function LateGoodDesk(tx: Transaction, bad: WitnessSignature, good: seq<WitnessSignature>): Desk
    requires |good| == 3
  {
    Desk([Meta(tx, [bad] + good, true)], map[], [Done, Done, Done, Done], [Confirmation(0, [bad, good[0], good[1]])])
  }

  /** One more packet for the only transaction, after any run. */
  lemma DeliverAfter(steps: seq<DeskStep>, d: Desk, m: Meta, sig: WitnessSignature)
    requires DeskRun(EMPTY, steps) == d && d.entries == [m] && d.table == map[m.tx.hash := 0]
    ensures var (m', claim) := Collect(m, sig);
            var x := if claim then Claimed(0, m.tx.hash, m'.sigs) else Done;
            var more := Handling(m.tx.hash, sig, |d.handlers|);
            DeskRun(EMPTY, steps + more) == d.(entries := [m'], handlers := d.handlers + [x])
  {
    DeskRunJoin(EMPTY, steps, Handling(m.tx.hash, sig, |d.handlers|));
    DeliverCollects(d, m, m.tx.hash, sig);
  }

  lemma SentAlone(tx: Transaction)
    ensures DeskRun(EMPTY, [Send(tx)]) == Desk([NewMeta(tx)], map[tx.hash := 0], [], [])
  {
    assert [Send(tx)][1..] == [];
  }

  /** The first three packets of the run, up to the claim. */
  lemma ThirdClaims(tx: Transaction, a: WitnessSignature, b: WitnessSignature, c: WitnessSignature)
    ensures DeskRun(EMPTY, [Send(tx)] + Handling(tx.hash, a, 0) + Handling(tx.hash, b, 1) + Handling(tx.hash, c, 2))
         == Desk([Meta(tx, [a, b, c], true)], map[tx.hash := 0], [Done, Done, Claimed(0, tx.hash, [a, b, c])], [])
  {
    var table, m0 := map[tx.hash := 0], NewMeta(tx);
    var m1, m2 := Meta(tx, [a], false), Meta(tx, [a, b], false);
    SentAlone(tx);
    DeliverAfter([Send(tx)], Desk([m0], table, [], []), m0, a);
    assert [] + [a] == [a] && [a] + [b] == [a, b] && [a, b] + [c] == [a, b, c];
    assert Collect(m0, a) == (m1, false) && Collect(m1, b) == (m2, false);
    assert [] + [Done] == [Done] && [Done] + [Done] == [Done, Done];
    var one := [Send(tx)] + Handling(tx.hash, a, 0);
    DeliverAfter(one, Desk([m1], table, [Done], []), m1, b);
    DeliverAfter(one + Handling(tx.hash, b, 1), Desk([m2], table, [Done, Done], []), m2, c);
    var x := Claimed(0, tx.hash, [a, b, c]);
    assert [Done, Done] + [x] == [Done, Done, x];
  }

  lemma LateGoodRunEnds(tx: Transaction, bad: WitnessSignature, good: seq<WitnessSignature>)
    requires |good| == 3
    ensures DeskRun(EMPTY, LateGoodRun(tx, bad, good)) == LateGoodDesk(tx, bad, good)
  {
    var copy := [bad, good[0], good[1]];
    var steps := [Send(tx)] + Handling(tx.hash, bad, 0) + Handling(tx.hash, good[0], 1) + Handling(tx.hash, good[1], 2);
    ThirdClaims(tx, bad, good[0], good[1]);
    var m := Meta(tx, copy, true);
    DeliverAfter(steps, Desk([m], map[tx.hash := 0], [Done, Done, Claimed(0, tx.hash, copy)], []), m, good[2]);
    DeskRunJoin(EMPTY, steps + Handling(tx.hash, good[2], 3), [Run(2), Run(2)]);
    assert copy + [good[2]] == [bad] + good;
    LateGoodClaim(tx, [bad] + good, copy);
  }

  lemma LateGoodClaim(tx: Transaction, sigs: seq<WitnessSignature>, copy: seq<WitnessSignature>)
    ensures DeskRun(Desk([Meta(tx, sigs, true)], map[tx.hash := 0], [Done, Done, Claimed(0, tx.hash, copy), Done], []),
                    [Run(2), Run(2)])
         == Desk([Meta(tx, sigs, true)], map[], [Done, Done, Done, Done], [Confirmation(0, copy)])
  {
    var d := Desk([Meta(tx, sigs, true)], map[tx.hash := 0], [Done, Done, Claimed(0, tx.hash, copy), Done], []);
    var d1 := Desk(d.entries, map[], [Done, Done, Removed(0, copy), Done], []);
    assert RunHandler(d, 2) == d1;
    assert [Run(2), Run(2)][1..] == [Run(2)] && [Run(2)][1..] == [];
    assert DeskRun(d1, [Run(2)]) == DeskRun(RunHandler(d1, 2), []);
  }

  /**
   A bad signature that arrives first spoils the quorum for good: the three good ones that follow are
   all collected and would meet it, but the one confirmation that is ever started does not.
   */
  lemma BadSignatureLosesQuorum(
      scheme: Scheme, active: set<PubKey>, tx: Transaction, bad: WitnessSignature, good: seq<WitnessSignature>)
    requires |good| == 3 && AllCount(scheme, good, tx.hash, active) && DistinctSigners(good)
    requires !Counts(scheme, bad, tx.hash, active)
    ensures var d := DeskRun(EMPTY, LateGoodRun(tx, bad, good));
            && |d.entries| == 1 && |d.started| == 1 && tx.hash !in d.table
            && QuorumMet(scheme, d.entries[0].sigs, tx.hash, active, QUORUM_K)
            && !QuorumMet(scheme, d.started[0].sigs, tx.hash, active, QUORUM_K)
  {
    LateGoodRunEnds(tx, bad, good);
    OneBadTooFew(scheme, tx.hash, active, bad, good);
  }

  /** Three good signatures meet the quorum with a bad one added, but not with one of them missing. */
  lemma OneBadTooFew(
      scheme: Scheme, txHash: Hash, active: set<PubKey>, bad: WitnessSignature, good: seq<WitnessSignature>)
    requires |good| == 3 && AllCount(scheme, good, txHash, active) && DistinctSigners(good)
    requires !Counts(scheme, bad, txHash, active)
    ensures QuorumMet(scheme, [bad] + good, txHash, active, QUORUM_K)
    ensures !QuorumMet(scheme, [bad, good[0], good[1]], txHash, active, QUORUM_K)
  {
    ExactQuorum(scheme, good, txHash, active);
    var kept := [bad] + good;
    ValidSignersMonotone(scheme, good, kept, txHash, active);
    var A, B := ValidSigners(scheme, good, txHash, active), ValidSigners(scheme, kept, txHash, active);
    assert B == A + (B - A);
    var first := [bad, good[0], good[1]];
    ExactQuorum(scheme, first, txHash, active);
    assert first[0] == bad;
  }
}
