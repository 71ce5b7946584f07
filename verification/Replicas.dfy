/**
 Crediting gossiped confirmations one after another: any order and any repetition of deliveries gives the same
 balances. `Deliveries` says which overlapping deliveries come to the same, and which do not.
 */
module Replicas {
  import opened Bytes
  import opened Types
  import opened Amounts
  import opened Ledgers
  import opened Sums
  import opened Transfers

  /** What a transaction hash stands for, as far as applying it goes. */
  datatype Credit = Credit(to: PubKey, amount: Amount)

  function ApplyAll(L: Ledger, txs: seq<Transaction>): Ledger
    decreases |txs|
  {
    if txs == [] then L else ApplyAll(Apply(L, txs[0]).0, txs[1..])
  }

  /** Every delivered transaction is what its hash stands for. */
  ghost predicate Agree(info: map<Hash, Credit>, txs: seq<Transaction>) {
    forall tx :: tx in txs ==> tx.hash in info && info[tx.hash] == Credit(tx.to, tx.amount)
  }

  ghost function Hashes(txs: seq<Transaction>): set<Hash> {
    set tx | tx in txs :: tx.hash
  }

  /** The amounts a set of hashes brings to one receiver. */
  function CreditsTo(info: map<Hash, Credit>, hs: set<Hash>, pk: PubKey): map<Hash, nat> {
    map h | h in hs && h in info && info[h].to == pk :: info[h].amount
  }

  ghost function Owed(info: map<Hash, Credit>, hs: set<Hash>, pk: PubKey): nat {
    Sum(CreditsTo(info, hs, pk))
  }

  lemma OwedGrows(info: map<Hash, Credit>, hs: set<Hash>, h: Hash, pk: PubKey)
    requires h in info && h !in hs
    ensures Owed(info, hs + {h}, pk) == Owed(info, hs, pk) + if info[h].to == pk then info[h].amount else 0
  {
    var before, after := CreditsTo(info, hs, pk), CreditsTo(info, hs + {h}, pk);
    if info[h].to == pk {
      assert after == before[h := info[h].amount];
      SumUpdate(before, h, info[h].amount);
    } else {
      assert after == before;
    }
  }

  lemma OwedMonotone(info: map<Hash, Credit>, hs: set<Hash>, more: set<Hash>, pk: PubKey)
    requires hs <= more
    ensures Owed(info, hs, pk) <= Owed(info, more, pk)
    decreases more - hs
  {
    if h :| h in more && h !in hs {
      if h in info {
        OwedGrows(info, hs, h, pk);
      } else {
        assert CreditsTo(info, hs + {h}, pk) == CreditsTo(info, hs, pk);
      }
      OwedMonotone(info, hs + {h}, more, pk);
    } else {
      assert hs == more;
    }
  }

  /** `M` is `L` after exactly the hashes of `hs` were newly applied, each once. */
  ghost predicate Credited(info: map<Hash, Credit>, L: Ledger, M: Ledger, hs: set<Hash>) {
    && hs !! L.applied
    && M.applied == L.applied + hs
    && (forall pk :: Balance(M, pk) == Balance(L, pk) + Owed(info, hs, pk))
    && (forall pk :: pk in M.bal <==> pk in L.bal || exists h :: h in hs && h in info && info[h].to == pk)
    && M == L.(bal := M.bal, applied := M.applied)
  }

  lemma CreditedNone(info: map<Hash, Credit>, L: Ledger)
    ensures Credited(info, L, L, {})
  {
    forall pk ensures Owed(info, {}, pk) == 0 {
      assert CreditsTo(info, {}, pk) == map[];
    }
  }

  lemma CreditedStep(info: map<Hash, Credit>, L: Ledger, M: Ledger, hs: set<Hash>, tx: Transaction)
    returns (hs': set<Hash>)
    requires Credited(info, L, M, hs) && Agree(info, [tx])
    ensures Credited(info, L, Apply(M, tx).0, hs')
    ensures hs' == if tx.hash in M.applied || Apply(M, tx).1 != None then hs else hs + {tx.hash}
  {
    assert tx in [tx];
    hs' := hs;
    var M' := Apply(M, tx).0;
    if tx.hash !in M.applied && Apply(M, tx).1 == None {
      hs' := hs + {tx.hash};
      forall pk ensures Balance(M', pk) == Balance(L, pk) + Owed(info, hs', pk) {
        OwedGrows(info, hs, tx.hash, pk);
      }
      forall pk ensures pk in M'.bal <==> pk in L.bal || exists h :: h in hs' && h in info && info[h].to == pk {
        if pk == tx.to {
          assert tx.hash in hs';
        } else if pk in M.bal && pk !in L.bal {
          var h :| h in hs && h in info && info[h].to == pk;
          assert h in hs';
        }
      }
    }
  }

  /**
   Exactly-once credit. After any deliveries one after another, duplicated and reordered at will, every
   balance is the initial one plus the amounts of the distinct hashes that were applied.
   */
  lemma {:induction false} DeliveriesCredit(
      info: map<Hash, Credit>, L: Ledger, M: Ledger, hs: set<Hash>, txs: seq<Transaction>) returns (hs': set<Hash>)
    requires Credited(info, L, M, hs) && Agree(info, txs)
    ensures Credited(info, L, ApplyAll(M, txs), hs')
    ensures hs <= hs' <= hs + Hashes(txs)
    decreases |txs|
  {
    if txs == [] {
      hs' := hs;
    } else {
      assert txs[0] in txs;
      var mid := CreditedStep(info, L, M, hs, txs[0]);
      hs' := DeliveriesCredit(info, L, Apply(M, txs[0]).0, mid, txs[1..]);
      assert txs[0].hash in Hashes(txs);
      assert forall h :: h in Hashes(txs[1..]) ==> h in Hashes(txs);
    }
  }

  /** The same from a given store, in terms of the marks it ends with. */
  lemma ExactlyOnce(info: map<Hash, Credit>, L: Ledger, txs: seq<Transaction>)
    requires Agree(info, txs)
    ensures var M := ApplyAll(L, txs);
            && L.applied <= M.applied <= L.applied + Hashes(txs)
            && (forall pk :: Balance(M, pk) == Balance(L, pk) + Owed(info, M.applied - L.applied, pk))
            && M == L.(bal := M.bal, applied := M.applied)
  {
    CreditedNone(info, L);
    var hs := DeliveriesCredit(info, L, L, {}, txs);
    assert ApplyAll(L, txs).applied - L.applied == hs;
  }

  /** The credits of all these hashes fit within the maximum at every receiver. */
  ghost predicate Fits(info: map<Hash, Credit>, L: Ledger, hs: set<Hash>) {
    forall pk :: Balance(L, pk) + Owed(info, hs - L.applied, pk) <= MAX_AMOUNT
  }

  /** A delivery that fits is applied unless it already was. */
  lemma FittingStep(info: map<Hash, Credit>, L: Ledger, M: Ledger, hs: set<Hash>, tx: Transaction, all: set<Hash>)
    returns (hs': set<Hash>)
    requires Credited(info, L, M, hs) && Agree(info, [tx])
    requires hs <= all && tx.hash in all && Fits(info, L, all)
    ensures Credited(info, L, Apply(M, tx).0, hs') && hs' == hs + ({tx.hash} - L.applied)
  {
    assert tx in [tx];
    hs' := CreditedStep(info, L, M, hs, tx);
    if tx.hash !in M.applied {
      OwedGrows(info, hs, tx.hash, tx.to);
      OwedMonotone(info, hs + {tx.hash}, all - L.applied, tx.to);
      assert Balance(M, tx.to) + tx.amount <= MAX_AMOUNT;
    }
  }

  /** If everything fits, everything delivered is applied. */
  lemma {:induction false} DeliveriesComplete(
      info: map<Hash, Credit>, L: Ledger, M: Ledger, hs: set<Hash>, txs: seq<Transaction>, all: set<Hash>)
    requires Credited(info, L, M, hs) && Agree(info, txs)
    requires hs <= all && Hashes(txs) <= all && Fits(info, L, all)
    ensures Credited(info, L, ApplyAll(M, txs), hs + (Hashes(txs) - L.applied))
    decreases |txs|
  {
    if txs == [] {
      assert hs + (Hashes(txs) - L.applied) == hs;
    } else {
      assert txs[0] in txs;
      HashesSplit(txs);
      var mid := FittingStep(info, L, M, hs, txs[0], all);
      DeliveriesComplete(info, L, Apply(M, txs[0]).0, mid, txs[1..], all);
      assert mid + (Hashes(txs[1..]) - L.applied) == hs + (Hashes(txs) - L.applied);
    }
  }

  lemma HashesSplit(txs: seq<Transaction>)
    requires txs != []
    ensures Hashes(txs) == {txs[0].hash} + Hashes(txs[1..])
  {
    assert txs == [txs[0]] + txs[1..];
    assert forall t :: t in txs <==> t == txs[0] || t in txs[1..];
  }

  /** The state after a set of credits is determined by the set. */
  lemma CreditedUnique(info: map<Hash, Credit>, L: Ledger, M: Ledger, N: Ledger, hs: set<Hash>)
    requires Credited(info, L, M, hs) && Credited(info, L, N, hs)
    ensures M == N
  {
    forall pk ensures (pk in M.bal <==> pk in N.bal) && (pk in M.bal ==> M.bal[pk] == N.bal[pk]) {
      assert Balance(M, pk) == Balance(N, pk);
    }
    assert M.bal == N.bal;
  }

  /** Replicas that start alike and receive the same set of confirmations, in any order and number, end alike. */
  lemma {:induction false} ReplicasConverge(
      info: map<Hash, Credit>, L: Ledger, txs: seq<Transaction>, txs': seq<Transaction>)
    requires Agree(info, txs) && Agree(info, txs') && Hashes(txs) == Hashes(txs')
    requires Fits(info, L, Hashes(txs))
    ensures ApplyAll(L, txs) == ApplyAll(L, txs')
    ensures ApplyAll(L, txs).applied == L.applied + Hashes(txs)
  {
    CreditedNone(info, L);
    DeliveriesComplete(info, L, L, {}, txs, Hashes(txs));
    DeliveriesComplete(info, L, L, {}, txs', Hashes(txs));
    CreditedUnique(info, L, ApplyAll(L, txs), ApplyAll(L, txs'), {} + (Hashes(txs) - L.applied));
  }
}
