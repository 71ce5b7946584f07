/** The transaction processor of a node, run step by step over its store and graph. */
module Processor {
  import opened Bytes
  import opened Types
  import opened Amounts
  import opened Dag
  import opened Crypto
  import opened Ledgers
  import opened Store
  import opened Transfers

  const SNAPSHOT_INTERVAL: nat := 1000
  const SNAPSHOT_TTL: nat := 21600

  /** An automatic snapshot that a confirmation leaves to be taken on its own. */
  datatype SnapshotTask = SnapshotTask(owner: PubKey, balance: Amount, sequence: uint64)

  /** One is due after every thousandth sequence, with what the sender has left. */
  predicate IsDue(due: Option<SnapshotTask>, L: Ledger, tx: Transaction, confirmed: bool) {
    && (due.Some? <==> confirmed && tx.sequence % 1000 == 0)
    && (due.Some? ==> due.value.owner == tx.from && due.value.sequence == tx.sequence
                      && due.value.balance + Cost(tx) == Balance(L, tx.from))
  }

  /** The balance it names is the recorded one, unless the transfer was to oneself and moved something. */
  lemma DueBalanceIff(s: NodeState, tx: Transaction, due: Option<SnapshotTask>)
    requires Confirm(s, tx).1 == None && IsDue(due, s.ledger, tx, true) && due.Some?
    ensures due.value.balance == Balance(Confirm(s, tx).0.ledger, due.value.owner)
       <==> tx.from != tx.to || tx.amount == 0
  {
  }

  class TxProcessor {
    const chain: ChainStore
    const snaps: SnapshotStore
    const dag: DagManager
    const scheme: Scheme
    /** The typed state the byte store holds. */
    ghost var view: View

    constructor (chain: ChainStore, snaps: SnapshotStore, dag: DagManager, scheme: Scheme, ghost view: View)
      requires Represents(chain.codec, chain.db.data, view)
      requires snaps.db == chain.db && snaps.codec == chain.codec
      ensures this.chain == chain && this.snaps == snaps && this.dag == dag && this.scheme == scheme
      ensures this.view == view && Valid()
    {
      this.chain := chain;
      this.snaps := snaps;
      this.dag := dag;
      this.scheme := scheme;
      this.view := view;
    }

    ghost predicate Valid()
      reads this, chain.db
    {
      Represents(chain.codec, chain.db.data, view) && snaps.db == chain.db && snaps.codec == chain.codec
    }

    ghost function State(): NodeState
      reads this, dag
    {
      NodeState(view.ledger, dag.edges)
    }

    /** Builds on the current tips; the random nonce and the time are inputs. */
    method BuildTx(kp: KeyPair, to: PubKey, amount: Amount, nonce: uint64, now: Time)
      returns (r: Result<Transaction>, ghost tips: seq<Hash>)
      requires Valid()
      ensures IsTipList(dag.edges, tips)
      ensures r == Build(view.ledger, tips, scheme, kp, to, amount, nonce, now)
    {
      var parents := dag.CurrentTips();
      tips := parents;
      var invalid := ValidateAmount(amount);
      if invalid.Some? {
        return Err(invalid.value), tips;
      }
      var bal := chain.GetBalance(kp.pub, view);
      var bond := BondAmount(amount);
      var needed := SafeAdd(amount, bond);
      if needed.Err? {
        return Err(needed.error), tips;
      }
      if bal < needed.value {
        return Err(InsufficientBalance), tips;
      }
      var sequence := chain.GetLatestSeq(kp.pub, view);
      sequence := (sequence + 1) % TWO_64;
      var tx := Transaction(ZeroHash(), sequence, nonce, kp.pub, to, amount, NoSignature(), parents, [], now, Pending);
      tx := SignTx(scheme, kp, tx);
      return Ok(tx), tips;
    }

    method VerifyTxInternal(tx: Transaction, snapshot: Option<Snapshot>, now: Time) returns (r: Option<Error>)
      requires Valid()
      ensures r == Verify(view.ledger, scheme, tx, snapshot, now)
    {
      if snapshot.Some? && snapshot.value.IsExpired(now) {
        return Some(SnapshotExpired);
      }
      r := Crypto.VerifyTx(scheme, tx);
      if r != None {
        return;
      }
      var chainSeq := chain.GetLatestSeq(tx.from, view);
      if chainSeq > 0 && tx.sequence != (chainSeq + 1) % TWO_64 {
        return Some(InvalidSequence);
      }
      var effectiveBal: Amount := 0;
      if snapshot.Some? {
        effectiveBal := snapshot.value.balance;
      }
      var has := chain.HasBalance(tx.from, view);
      if has {
        var dbBal := chain.GetBalance(tx.from, view);
        if snapshot.Some? && dbBal < effectiveBal {
          effectiveBal := dbBal;
        } else if snapshot.None? {
          effectiveBal := dbBal;
        }
      }
      var needed := AddOrZero(tx.amount, BondAmount(tx.amount));
      if effectiveBal < needed {
        return Some(InsufficientBalance);
      }
      return None;
    }

    /** Reads, checks, the graph, the batch, then the bond; run as one step. A due snapshot is left for later. */
    method ConfirmTx(tx: Transaction) returns (r: Option<Error>, due: Option<SnapshotTask>)
      requires Valid()
      modifies this`view, chain.db`data, dag
      ensures Valid()
      ensures (State(), r) == Confirm(old(State()), tx)
      ensures view == old(view).(ledger := view.ledger)
      ensures IsDue(due, old(view).ledger, tx, r == None)
    {
      var bal := chain.GetBalance(tx.from, view);
      var bond := BondAmount(tx.amount);
      var total := SafeAdd(tx.amount, bond);
      if total.Err? {
        return Some(total.error), None;
      }
      var newSenderBal := SafeSub(bal, total.value);
      if newSenderBal.Err? {
        return Some(newSenderBal.error), None;
      }
      var recvBal := chain.GetBalance(tx.to, view);
      var newRecvBal := SafeAdd(recvBal, tx.amount);
      if newRecvBal.Err? {
        return Some(newRecvBal.error), None;
      }
      var ok := dag.AdvanceTip(tx.hash, tx.parents);
      if !ok {
        return Some(DagCycle), None;
      }
      var confirmed := tx.(status := Confirmed);
      chain.ConfirmTxBatch(confirmed, newSenderBal.value, newRecvBal.value, view);
      view := view.(ledger := Recorded(view.ledger, confirmed, newSenderBal.value, newRecvBal.value));
      var ignored := chain.AccumulateBond(bond, view);
      view := view.(ledger := AddToPool(view.ledger, bond));
      if tx.sequence % SNAPSHOT_INTERVAL == 0 {
        return None, Some(SnapshotTask(tx.from, newSenderBal.value, tx.sequence));
      }
      return None, None;
    }

    /** Takes a due snapshot, on the tips of the graph as it is by then. */
    method AutoSnapshot(task: SnapshotTask, now: Time) returns (ghost tips: seq<Hash>)
      requires Valid()
      modifies this`view, chain.db`data
      ensures Valid() && IsTipList(dag.edges, tips)
      ensures var snap := Snapshot(task.owner, task.sequence, task.balance, tips, now, now + 21600);
              view == old(view).(snaps := old(view).snaps[task.owner := snap])
    {
      var current := dag.CurrentTips();
      tips := current;
      var snap := Snapshot(task.owner, task.sequence, task.balance, current, now, now + SNAPSHOT_TTL);
      snaps.SaveSnapshot(snap, view);
      view := view.(snaps := view.snaps[task.owner := snap]);
    }

    /** Credits the receiver of a gossiped confirmation unless its hash is already marked. */
    method ApplyConfirmedTxBalance(tx: Transaction) returns (r: Option<Error>)
      requires Valid()
      modifies this`view, chain.db`data
      ensures Valid()
      ensures (view.ledger, r) == Apply(old(view.ledger), tx)
      ensures view == old(view).(ledger := view.ledger)
    {
      var done := chain.IsConfirmedTxApplied(tx.hash, view);
      if done {
        return None;
      }
      var recvBal := chain.GetBalance(tx.to, view);
      var newBal := SafeAdd(recvBal, tx.amount);
      if newBal.Err? {
        return Some(newBal.error);
      }
      chain.SaveBalance(tx.to, newBal.value, view);
      view := view.(ledger := view.ledger.(bal := view.ledger.bal[tx.to := newBal.value]));
      chain.MarkConfirmedTxApplied(tx.hash, view);
      view := view.(ledger := view.ledger.(applied := view.ledger.applied + {tx.hash}));
      return None;
    }
  }
}
