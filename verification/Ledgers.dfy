/** The typed state of a node's store, as separate maps. */
module Ledgers {
  import opened Bytes
  import opened Types

  datatype Ledger = Ledger(
    bal: map<PubKey, Amount>,
    seqs: map<PubKey, uint64>,
    txs: map<(PubKey, uint64), Transaction>,
    applied: set<Hash>,
    pool: Option<Amount>)

  /** Everything the store holds; nonce locks carry the time they expire. */
  datatype View = View(
    ledger: Ledger,
    snaps: map<PubKey, Snapshot>,
    witnesses: Option<seq<Witness>>,
    locks: map<(PubKey, uint64), Time>)

  /** A missing balance, sequence or pool reads as 0. */
  function Balance(L: Ledger, pk: PubKey): Amount {
    if pk in L.bal then L.bal[pk] else 0
  }

  function LatestSeq(L: Ledger, pk: PubKey): uint64 {
    if pk in L.seqs then L.seqs[pk] else 0
  }

  function Pool(L: Ledger): Amount {
    match L.pool
    case Some(n) => n
    case None => 0
  }

  /** The four writes of a confirmed transaction, in their order. */
  function Recorded(L: Ledger, tx: Transaction, senderBal: Amount, receiverBal: Amount): Ledger {
    L.(bal := L.bal[tx.from := senderBal][tx.to := receiverBal],
       seqs := L.seqs[tx.from := tx.sequence],
       txs := L.txs[(tx.from, tx.sequence) := tx])
  }
}
