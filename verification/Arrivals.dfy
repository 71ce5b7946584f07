/**
 No signature is lost on its way to the originator: what arrived for a transaction is collected or
 still carried by a handler, as long as the transaction is pending.
 */
module Arrivals {
  import opened Bytes
  import opened Types
  import opened Pending

  /** What a signature counts for: 1 for all of them, or 1 for one particular signature and 0 otherwise. */
  type Weight = WitnessSignature -> nat

  function Tally(w: Weight, sigs: seq<WitnessSignature>): nat {
    if sigs == [] then 0 else Tally(w, sigs[..|sigs| - 1]) + w(sigs[|sigs| - 1])
  }

  /** The signatures that arrived for a transaction, in order. */
  function Arrived(steps: seq<DeskStep>, txHash: Hash): seq<WitnessSignature> {
    if steps == [] then [] else
      var last := steps[|steps| - 1];
      Arrived(steps[..|steps| - 1], txHash) + if last.Arrive? && last.txHash == txHash then [last.sig] else []
  }

  ghost predicate Unsent(d: Desk, h: Hash) {
    forall e :: 0 <= e < |d.entries| ==> d.entries[e].tx.hash != h
  }

  /**
   Transactions have different hashes, and no signature exists before its transaction is sent.
   Signatures for transactions of other nodes, which are only relayed here, arrive at any time.
   */
  ghost predicate Orderly(d: Desk, past: seq<DeskStep>, step: DeskStep) {
    step.Send? ==> Unsent(d, step.tx.hash) && Arrived(past, step.tx.hash) == []
  }

  ghost predicate OrderlyRun(d: Desk, past: seq<DeskStep>, steps: seq<DeskStep>)
    decreases |steps|
  {
    steps != [] ==>
      Orderly(d, past, steps[0]) && OrderlyRun(DeskNext(d, steps[0]), past + [steps[0]], steps[1..])
  }

  /** The signature a handler still has to append. */
  function Carried(w: Weight, x: Handler, txHash: Hash): nat {
    if (x.Waiting? || x.Found?) && x.txHash == txHash then w(x.sig) else 0
  }

  function InFlight(w: Weight, hs: seq<Handler>, txHash: Hash): nat {
    if hs == [] then 0 else InFlight(w, hs[..|hs| - 1], txHash) + Carried(w, hs[|hs| - 1], txHash)
  }

  lemma TallyAppend(w: Weight, sigs: seq<WitnessSignature>, sig: WitnessSignature)
    ensures Tally(w, sigs + [sig]) == Tally(w, sigs) + w(sig)
  {
    assert (sigs + [sig])[..|sigs|] == sigs;
  }

  lemma InFlightAppend(w: Weight, hs: seq<Handler>, x: Handler, txHash: Hash)
    ensures InFlight(w, hs + [x], txHash) == InFlight(w, hs, txHash) + Carried(w, x, txHash)
  {
    assert (hs + [x])[..|hs|] == hs;
  }

  lemma {:induction false} InFlightUpdate(w: Weight, hs: seq<Handler>, i: nat, x: Handler, txHash: Hash)
    requires i < |hs|
    ensures InFlight(w, hs[i := x], txHash)
         == InFlight(w, hs, txHash) - Carried(w, hs[i], txHash) + Carried(w, x, txHash)
    decreases |hs|
  {
    var n := |hs| - 1;
    if i < n {
      InFlightUpdate(w, hs[..n], i, x, txHash);
      assert hs[i := x][..n] == hs[..n][i := x];
    } else {
      assert hs[i := x][..n] == hs[..n];
    }
  }

  lemma {:induction false} InFlightIdle(w: Weight, hs: seq<Handler>, txHash: Hash)
    requires forall i :: 0 <= i < |hs| ==> hs[i].Done?
    ensures InFlight(w, hs, txHash) == 0
    decreases |hs|
  {
    if hs != [] {
      InFlightIdle(w, hs[..|hs| - 1], txHash);
    }
  }

  lemma ArrivedStep(w: Weight, past: seq<DeskStep>, step: DeskStep, h: Hash)
    ensures step.Arrive? && step.txHash == h ==> Arrived(past + [step], h) == Arrived(past, h) + [step.sig]
    ensures !(step.Arrive? && step.txHash == h) ==> Arrived(past + [step], h) == Arrived(past, h)
    ensures Tally(w, Arrived(past + [step], h))
         == Tally(w, Arrived(past, h)) + if step.Arrive? && step.txHash == h then w(step.sig) else 0
  {
    assert (past + [step])[..|past|] == past;
    if step.Arrive? && step.txHash == h {
      TallyAppend(w, Arrived(past, h), step.sig);
    } else {
      assert Arrived(past, h) + [] == Arrived(past, h);
    }
  }

  ghost predicate UniqueHashes(d: Desk) {
    forall e, f :: 0 <= e < f < |d.entries| ==> d.entries[e].tx.hash != d.entries[f].tx.hash
  }

  /** An entry leaves the table only once it is marked. */
  ghost predicate Tabled(d: Desk) {
    forall e :: 0 <= e < |d.entries| && !d.entries[e].confirmed ==>
      d.entries[e].tx.hash in d.table && d.table[d.entries[e].tx.hash] == e
  }

  /** Collected and in flight together are at most what arrived, and all of it while the entry is in the table. */
  ghost predicate AccountedEntry(w: Weight, d: Desk, past: seq<DeskStep>, e: nat)
    requires e < |d.entries|
  {
    var h := d.entries[e].tx.hash;
    var kept := Tally(w, d.entries[e].sigs) + InFlight(w, d.handlers, h);
    kept <= Tally(w, Arrived(past, h)) && (h in d.table ==> kept == Tally(w, Arrived(past, h)))
  }

  ghost predicate AccountedUnsent(w: Weight, d: Desk, past: seq<DeskStep>, h: Hash) {
    Arrived(past, h) == [] ==> InFlight(w, d.handlers, h) == 0
  }

  ghost predicate Accounted(w: Weight, d: Desk, past: seq<DeskStep>) {
    && UniqueHashes(d) && Tabled(d)
    && (forall e :: 0 <= e < |d.entries| ==> AccountedEntry(w, d, past, e))
    && (forall h :: Unsent(d, h) ==> AccountedUnsent(w, d, past, h))
  }

  lemma SendAccountsEntry(w: Weight, d: Desk, past: seq<DeskStep>, tx: Transaction, e: nat)
    requires e <= |d.entries| && Orderly(d, past, Send(tx)) && AccountedUnsent(w, d, past, tx.hash)
    requires e < |d.entries| ==> AccountedEntry(w, d, past, e)
    ensures AccountedEntry(w, DeskNext(d, Send(tx)), past + [Send(tx)], e)
  {
    var d' := DeskNext(d, Send(tx));
    ArrivedStep(w, past, Send(tx), d'.entries[e].tx.hash);
    assert d'.handlers == d.handlers;
    if e < |d.entries| {
      assert d'.entries[e] == d.entries[e] && d.entries[e].tx.hash != tx.hash;
    }
  }

  lemma SendAccounts(w: Weight, d: Desk, past: seq<DeskStep>, tx: Transaction)
    requires Invariant(d) && Accounted(w, d, past) && Orderly(d, past, Send(tx))
    ensures Accounted(w, DeskNext(d, Send(tx)), past + [Send(tx)])
  {
    var d' := DeskNext(d, Send(tx));
    SendTabled(d, tx);
    assert AccountedUnsent(w, d, past, tx.hash);
    forall e | 0 <= e < |d'.entries| ensures AccountedEntry(w, d', past + [Send(tx)], e) {
      SendAccountsEntry(w, d, past, tx, e);
    }
    forall h | Unsent(d', h) ensures AccountedUnsent(w, d', past + [Send(tx)], h) {
      ArrivedStep(w, past, Send(tx), h);
      assert forall e :: 0 <= e < |d.entries| ==> d'.entries[e] == d.entries[e];
      assert Unsent(d, h);
      assert AccountedUnsent(w, d, past, h);
    }
  }

  lemma SendTabled(d: Desk, tx: Transaction)
    requires UniqueHashes(d) && Tabled(d) && Unsent(d, tx.hash)
    ensures UniqueHashes(DeskNext(d, Send(tx))) && Tabled(DeskNext(d, Send(tx)))
  {
  }

  lemma ArriveAccounts(w: Weight, d: Desk, past: seq<DeskStep>, txHash: Hash, sig: WitnessSignature)
    requires Accounted(w, d, past)
    ensures Accounted(w, DeskNext(d, Arrive(txHash, sig)), past + [Arrive(txHash, sig)])
  {
    var step := Arrive(txHash, sig);
    var d' := DeskNext(d, step);
    forall e | 0 <= e < |d'.entries| ensures AccountedEntry(w, d', past + [step], e) {
      ArrivedStep(w, past, step, d.entries[e].tx.hash);
      InFlightAppend(w, d.handlers, Waiting(txHash, sig), d.entries[e].tx.hash);
      assert AccountedEntry(w, d, past, e);
    }
    forall h | Unsent(d', h) ensures AccountedUnsent(w, d', past + [step], h) {
      ArrivedStep(w, past, step, h);
      InFlightAppend(w, d.handlers, Waiting(txHash, sig), h);
      assert Unsent(d, h);
    }
  }

  lemma HandlerUnique(d: Desk, h: nat)
    requires Invariant(d) && UniqueHashes(d) && Tabled(d) && h < |d.handlers|
    ensures UniqueHashes(RunHandler(d, h)) && Tabled(RunHandler(d, h))
  {
    var x := d.handlers[h];
    if x.Claimed? {
      assert IsFirstThree(d, x.entry, x.copy);
      assert d.entries[x.entry].confirmed;
    }
  }

  lemma CollectAccounts(w: Weight, d: Desk, past: seq<DeskStep>, h: nat, e: nat)
    requires References(d) && UniqueHashes(d) && h < |d.handlers| && d.handlers[h].Found? && e < |d.entries|
    requires AccountedEntry(w, d, past, e)
    ensures AccountedEntry(w, RunHandler(d, h), past, e)
  {
    var d' := RunHandler(d, h);
    var Found(e0, txHash, sig) := d.handlers[h];
    InFlightUpdate(w, d.handlers, h, d'.handlers[h], d.entries[e].tx.hash);
    if e == e0 {
      TallyAppend(w, d.entries[e].sigs, sig);
    } else {
      assert d'.entries[e] == d.entries[e] && txHash != d.entries[e].tx.hash;
    }
  }

  /** A handler's step moves its signature into the entry, or keeps it, unless the entry is no longer in the table. */
  lemma HandlerAccounts(w: Weight, d: Desk, past: seq<DeskStep>, h: nat, e: nat)
    requires References(d) && UniqueHashes(d) && h < |d.handlers| && e < |d.entries|
    requires AccountedEntry(w, d, past, e)
    ensures AccountedEntry(w, RunHandler(d, h), past, e)
  {
    if d.handlers[h].Found? {
      CollectAccounts(w, d, past, h, e);
    } else if d.handlers[h].Waiting? {
      LookupAccounts(w, d, past, h, e);
    } else if !d.handlers[h].Done? {
      RetireAccounts(w, d, RunHandler(d, h), past, h, RunHandler(d, h).handlers[h], e);
    }
  }

  /** A lookup keeps the signature in flight, or drops it because the transaction is no longer in the table. */
  lemma LookupAccounts(w: Weight, d: Desk, past: seq<DeskStep>, h: nat, e: nat)
    requires h < |d.handlers| && d.handlers[h].Waiting? && e < |d.entries|
    requires AccountedEntry(w, d, past, e)
    ensures AccountedEntry(w, RunHandler(d, h), past, e)
  {
    var x, d' := d.handlers[h], RunHandler(d, h);
    var y := d'.handlers[h];
    assert d'.entries == d.entries && d'.table == d.table && d'.handlers == d.handlers[h := y];
    assert y == if x.txHash in d.table then Found(d.table[x.txHash], x.txHash, x.sig) else Done;
    InFlightUpdate(w, d.handlers, h, y, d.entries[e].tx.hash);
  }

  /** A handler that carries no signature changes nothing but the table, which only shrinks. */
  lemma RetireAccounts(w: Weight, d: Desk, d': Desk, past: seq<DeskStep>, h: nat, x: Handler, e: nat)
    requires h < |d.handlers| && e < |d.entries| && AccountedEntry(w, d, past, e)
    requires d'.entries == d.entries && d'.table.Keys <= d.table.Keys
    requires d'.handlers == d.handlers[h := x]
    requires !(x.Waiting? || x.Found? || d.handlers[h].Waiting? || d.handlers[h].Found?)
    ensures AccountedEntry(w, d', past, e)
  {
    InFlightUpdate(w, d.handlers, h, x, d.entries[e].tx.hash);
  }

  lemma RunAccounts(w: Weight, d: Desk, past: seq<DeskStep>, h: nat)
    requires Invariant(d) && Accounted(w, d, past) && h < |d.handlers|
    ensures Accounted(w, RunHandler(d, h), past)
  {
    var d' := RunHandler(d, h);
    HandlerUnique(d, h);
    forall e | 0 <= e < |d'.entries| ensures AccountedEntry(w, d', past, e) {
      HandlerAccounts(w, d, past, h, e);
    }
    forall k | Unsent(d', k) ensures AccountedUnsent(w, d', past, k) {
      assert forall e :: 0 <= e < |d.entries| ==> d'.entries[e].tx == d.entries[e].tx;
      assert Unsent(d, k);
      assert AccountedUnsent(w, d, past, k);
      InFlightUpdate(w, d.handlers, h, d'.handlers[h], k);
    }
  }

  /** The passing of a handler's step adds no arrival. */
  lemma QuietStep(w: Weight, d: Desk, past: seq<DeskStep>, h: nat)
    requires Accounted(w, d, past)
    ensures Accounted(w, d, past + [Run(h)])
  {
    forall e | 0 <= e < |d.entries| ensures AccountedEntry(w, d, past + [Run(h)], e) {
      ArrivedStep(w, past, Run(h), d.entries[e].tx.hash);
      assert AccountedEntry(w, d, past, e);
    }
    forall k | Unsent(d, k) ensures AccountedUnsent(w, d, past + [Run(h)], k) {
      ArrivedStep(w, past, Run(h), k);
    }
  }

  lemma {:induction false} RunAccounted(w: Weight, d: Desk, past: seq<DeskStep>, steps: seq<DeskStep>)
    requires Invariant(d) && Accounted(w, d, past) && OrderlyRun(d, past, steps)
    ensures Invariant(DeskRun(d, steps)) && Accounted(w, DeskRun(d, steps), past + steps)
    decreases |steps|
  {
    if steps == [] {
      assert past + steps == past;
    } else {
      var d' := DeskNext(d, steps[0]);
      StepKeeps(d, steps[0]);
      match steps[0] {
        case Send(tx) => SendAccounts(w, d, past, tx);
        case Arrive(txHash, sig) => ArriveAccounts(w, d, past, txHash, sig);
        case Run(h) =>
          if h < |d.handlers| {
            RunAccounts(w, d, past, h);
          }
          QuietStep(w, d', past, h);
      }
      RunAccounted(w, d', past + [steps[0]], steps[1..]);
      assert past + [steps[0]] + steps[1..] == past + steps;
    }
  }

  ghost predicate Idle(d: Desk) {
    forall h :: 0 <= h < |d.handlers| ==> d.handlers[h].Done?
  }

  lemma {:induction false} TallyOnes(sigs: seq<WitnessSignature>)
    ensures Tally(_ => 1, sigs) == |sigs|
  {
    if sigs != [] {
      TallyOnes(sigs[..|sigs| - 1]);
    }
  }

  lemma IdleConfirmed(d: Desk, past: seq<DeskStep>, e: nat)
    requires Invariant(d) && Accounted(_ => 1, d, past) && Idle(d) && e < |d.entries|
    ensures IsStarted(d, e) <==> |Arrived(past, d.entries[e].tx.hash)| >= 3
  {
    var h := d.entries[e].tx.hash;
    assert AccountedEntry(_ => 1, d, past, e);
    InFlightIdle(_ => 1, d.handlers, h);
    TallyOnes(d.entries[e].sigs);
    TallyOnes(Arrived(past, h));
    if i :| 0 <= i < |d.started| && d.started[i].entry == e {
      assert IsFirstThree(d, e, d.started[i].sigs);
    } else {
      assert !IsWon(d, e);
    }
  }

  lemma IdleHoldsAll(d: Desk, past: seq<DeskStep>, e: nat, w: Weight, sig: WitnessSignature)
    requires Accounted(w, d, past) && Idle(d) && e < |d.entries| && d.entries[e].tx.hash in d.table
    requires forall x :: w(x) == if x == sig then 1 else 0
    ensures multiset(d.entries[e].sigs)[sig] == multiset(Arrived(past, d.entries[e].tx.hash))[sig]
  {
    assert AccountedEntry(w, d, past, e);
    InFlightIdle(w, d.handlers, d.entries[e].tx.hash);
    TallyOf(d.entries[e].sigs, w, sig);
    TallyOf(Arrived(past, d.entries[e].tx.hash), w, sig);
  }

  lemma FromEmpty(w: Weight, steps: seq<DeskStep>)
    requires OrderlyRun(EMPTY, [], steps)
    ensures Invariant(DeskRun(EMPTY, steps)) && Accounted(w, DeskRun(EMPTY, steps), steps)
  {
    assert [] + steps == steps;
    RunAccounted(w, EMPTY, [], steps);
  }

  /**
   Once every handler is done, exactly those transactions were handed to confirmation for which at
   least three signatures arrived.
   */
  lemma ConfirmedIffThreeArrived(steps: seq<DeskStep>, d: Desk, e: nat)
    requires OrderlyRun(EMPTY, [], steps) && d == DeskRun(EMPTY, steps) && e < |d.entries| && Idle(d)
    ensures IsStarted(d, e) <==> |Arrived(steps, d.entries[e].tx.hash)| >= 3
  {
    FromEmpty(_ => 1, steps);
    IdleConfirmed(d, steps, e);
  }

  /** And every transaction still pending then holds every signature that arrived for it, as often as it arrived. */
  lemma PendingHoldsAll(steps: seq<DeskStep>, d: Desk, e: nat, sig: WitnessSignature)
    requires OrderlyRun(EMPTY, [], steps) && d == DeskRun(EMPTY, steps) && e < |d.entries| && Idle(d)
    requires d.entries[e].tx.hash in d.table
    ensures multiset(d.entries[e].sigs)[sig] == multiset(Arrived(steps, d.entries[e].tx.hash))[sig]
  {
    var w: Weight := x => if x == sig then 1 else 0;
    FromEmpty(w, steps);
    IdleHoldsAll(d, steps, e, w, sig);
  }

  lemma {:induction false} TallyOf(sigs: seq<WitnessSignature>, w: Weight, sig: WitnessSignature)
    requires forall x :: w(x) == if x == sig then 1 else 0
    ensures Tally(w, sigs) == multiset(sigs)[sig]
  {
    if sigs != [] {
      TallyOf(sigs[..|sigs| - 1], w, sig);
      assert sigs == sigs[..|sigs| - 1] + [sigs[|sigs| - 1]];
    }
  }
}
