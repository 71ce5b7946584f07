/** The flat byte-keyed store and the typed stores over it, proved to refine separate typed maps. */
module Store {
  import opened Bytes
  import opened Types
  import opened Amounts
  import opened Keys
  import opened Ledgers

  /** A stored value; entries written with a lifetime carry the time they expire. */
  datatype Entry = Entry(val: seq<byte>, expiry: Option<Time>)

  type Data = map<seq<byte>, Entry>

  function Lookup(data: Data, key: seq<byte>, now: Time): Option<seq<byte>> {
    if key in data && (data[key].expiry.None? || now < data[key].expiry.value) then Some(data[key].val) else None
  }

  function Forever(val: seq<byte>): Entry {
    Entry(val, None)
  }

  /** How structured values are written as bytes and read back. */
  datatype Codec = Codec(
    encTx: Transaction -> seq<byte>, decTx: seq<byte> -> Option<Transaction>,
    encSnap: Snapshot -> seq<byte>, decSnap: seq<byte> -> Option<Snapshot>,
    encWits: seq<Witness> -> seq<byte>, decWits: seq<byte> -> Option<seq<Witness>>)
  {
    /** What the encoder promises. */
    ghost predicate RoundTrips() {
      && (forall t :: decTx(encTx(t)) == Some(t))
      && (forall s :: decSnap(encSnap(s)) == Some(s))
      && (forall w :: decWits(encWits(w)) == Some(w))
    }
  }

  // ---- Refinement -----------------------------------------------------------------------------

  /** The bytes the typed state keeps under a key. */
  function TypedEntry(c: Codec, v: View, k: StoreKey): Option<Entry> {
    match k
    case BalanceKey(pk) => if pk in v.ledger.bal then Some(Forever(U64(v.ledger.bal[pk]))) else None
    case SequenceKey(pk) => if pk in v.ledger.seqs then Some(Forever(U64(v.ledger.seqs[pk]))) else None
    case TxKey(pk, n) => if (pk, n) in v.ledger.txs then Some(Forever(c.encTx(v.ledger.txs[(pk, n)]))) else None
    case AppliedKey(h) => if h in v.ledger.applied then Some(Forever([1])) else None
    case RewardPoolKey => if v.ledger.pool.Some? then Some(Forever(U64(v.ledger.pool.value))) else None
    case SnapshotKey(pk) => if pk in v.snaps then Some(Forever(c.encSnap(v.snaps[pk]))) else None
    case WitnessesKey => if v.witnesses.Some? then Some(Forever(c.encWits(v.witnesses.value))) else None
    case NonceLockKey(pk, n) => if (pk, n) in v.locks then Some(Entry([1], Some(v.locks[(pk, n)]))) else None
  }

  /** The entry a flat store keeps under a typed key. */
  function FlatEntry(data: Data, k: StoreKey): Option<Entry> {
    if Encode(k) in data then Some(data[Encode(k)]) else None
  }

  /** The flat store holds exactly the typed state. */
  ghost predicate Represents(c: Codec, data: Data, v: View) {
    forall k: StoreKey :: FlatEntry(data, k) == TypedEntry(c, v, k)
  }

  /** A flat write under one key refines a typed change that touches nothing else. */
  lemma WriteRefines(c: Codec, data: Data, v: View, v': View, k: StoreKey, e: Entry)
    requires Represents(c, data, v)
    requires TypedEntry(c, v', k) == Some(e)
    requires forall l :: l != k ==> TypedEntry(c, v', l) == TypedEntry(c, v, l)
    ensures Represents(c, data[Encode(k) := e], v')
  {
    var data' := data[Encode(k) := e];
    forall l ensures FlatEntry(data', l) == TypedEntry(c, v', l) {
      assert FlatEntry(data, l) == TypedEntry(c, v, l);
      if Encode(l) == Encode(k) {
        EncodeInjective(k, l);
      }
    }
  }

  lemma DeleteRefines(c: Codec, data: Data, v: View, v': View, k: StoreKey)
    requires Represents(c, data, v)
    requires TypedEntry(c, v', k) == None
    requires forall l :: l != k ==> TypedEntry(c, v', l) == TypedEntry(c, v, l)
    ensures Represents(c, data - {Encode(k)}, v')
  {
    var data' := data - {Encode(k)};
    forall l ensures FlatEntry(data', l) == TypedEntry(c, v', l) {
      assert FlatEntry(data, l) == TypedEntry(c, v, l);
      if Encode(l) == Encode(k) {
        EncodeInjective(k, l);
      }
    }
  }

  /** The two balance writes of a batch; the receiver's comes last. */
  function WithBalances(data: Data, tx: Transaction, senderBal: Amount, receiverBal: Amount): Data {
    data[Encode(BalanceKey(tx.from)) := Forever(U64(senderBal))][Encode(BalanceKey(tx.to)) := Forever(U64(receiverBal))]
  }

  lemma BalancesRefine(c: Codec, data: Data, v: View, tx: Transaction, senderBal: Amount, receiverBal: Amount)
    requires Represents(c, data, v)
    ensures Represents(c, WithBalances(data, tx, senderBal, receiverBal),
                       v.(ledger := v.ledger.(bal := v.ledger.bal[tx.from := senderBal][tx.to := receiverBal])))
  {
    var v1 := v.(ledger := v.ledger.(bal := v.ledger.bal[tx.from := senderBal]));
    WriteRefines(c, data, v, v1, BalanceKey(tx.from), Forever(U64(senderBal)));
    var v2 := v1.(ledger := v1.ledger.(bal := v1.ledger.bal[tx.to := receiverBal]));
    WriteRefines(c, data[Encode(BalanceKey(tx.from)) := Forever(U64(senderBal))], v1, v2,
                 BalanceKey(tx.to), Forever(U64(receiverBal)));
  }

  lemma EntryRefines(c: Codec, data: Data, v: View, tx: Transaction)
    requires Represents(c, data, v)
    ensures Represents(c, data[Encode(SequenceKey(tx.from)) := Forever(U64(tx.sequence))]
                              [Encode(TxKey(tx.from, tx.sequence)) := Forever(c.encTx(tx))],
                       v.(ledger := v.ledger.(seqs := v.ledger.seqs[tx.from := tx.sequence],
                                              txs := v.ledger.txs[(tx.from, tx.sequence) := tx])))
  {
    var v1 := v.(ledger := v.ledger.(seqs := v.ledger.seqs[tx.from := tx.sequence]));
    WriteRefines(c, data, v, v1, SequenceKey(tx.from), Forever(U64(tx.sequence)));
    var v2 := v1.(ledger := v1.ledger.(txs := v1.ledger.txs[(tx.from, tx.sequence) := tx]));
    WriteRefines(c, data[Encode(SequenceKey(tx.from)) := Forever(U64(tx.sequence))], v1, v2,
                 TxKey(tx.from, tx.sequence),
                 Forever(c.encTx(tx)));
  }

  /** The four flat writes of a confirmation refine the four typed ones and touch nothing else. */
  lemma BatchRefines(c: Codec, data: Data, v: View, tx: Transaction, senderBal: Amount, receiverBal: Amount)
    requires Represents(c, data, v)
    ensures Represents(c, WithBalances(data, tx, senderBal, receiverBal)
                            [Encode(SequenceKey(tx.from)) := Forever(U64(tx.sequence))]
                            [Encode(TxKey(tx.from, tx.sequence)) := Forever(c.encTx(tx))],
                       v.(ledger := Recorded(v.ledger, tx, senderBal, receiverBal)))
  {
    BalancesRefine(c, data, v, tx, senderBal, receiverBal);
    var v1 := v.(ledger := v.ledger.(bal := v.ledger.bal[tx.from := senderBal][tx.to := receiverBal]));
    EntryRefines(c, WithBalances(data, tx, senderBal, receiverBal), v1, tx);
  }

  /** The typed state a flat store holds is unique: nothing written under one name can be read under another. */
  lemma ViewUnique(c: Codec, data: Data, v: View, w: View)
    requires c.RoundTrips() && Represents(c, data, v) && Represents(c, data, w)
    ensures v == w
  {
    assert forall k :: TypedEntry(c, v, k) == FlatEntry(data, k) == TypedEntry(c, w, k);
    LedgerUnique(c, v, w);
    forall pk ensures (pk in v.snaps <==> pk in w.snaps) && (pk in v.snaps ==> v.snaps[pk] == w.snaps[pk]) {
      assert TypedEntry(c, v, SnapshotKey(pk)) == TypedEntry(c, w, SnapshotKey(pk));
      if pk in v.snaps {
        assert c.decSnap(c.encSnap(v.snaps[pk])) == c.decSnap(c.encSnap(w.snaps[pk]));
      }
    }
    assert v.snaps == w.snaps;
    assert TypedEntry(c, v, WitnessesKey) == TypedEntry(c, w, WitnessesKey);
    if v.witnesses.Some? {
      assert c.decWits(c.encWits(v.witnesses.value)) == c.decWits(c.encWits(w.witnesses.value));
    }
    forall x: (PubKey, uint64) ensures (x in v.locks <==> x in w.locks) && (x in v.locks ==> v.locks[x] == w.locks[x]) {
      assert TypedEntry(c, v, NonceLockKey(x.0, x.1)) == TypedEntry(c, w, NonceLockKey(x.0, x.1));
    }
    assert v.locks == w.locks;
  }

  lemma LedgerUnique(c: Codec, v: View, w: View)
    requires c.RoundTrips() && forall k :: TypedEntry(c, v, k) == TypedEntry(c, w, k)
    ensures v.ledger == w.ledger
  {
    var L, M := v.ledger, w.ledger;
    forall pk ensures (pk in L.bal <==> pk in M.bal) && (pk in L.bal ==> L.bal[pk] == M.bal[pk]) {
      assert TypedEntry(c, v, BalanceKey(pk)) == TypedEntry(c, w, BalanceKey(pk));
      if pk in L.bal {
        U64Injective(L.bal[pk], M.bal[pk]);
      }
    }
    assert L.bal == M.bal;
    forall pk ensures (pk in L.seqs <==> pk in M.seqs) && (pk in L.seqs ==> L.seqs[pk] == M.seqs[pk]) {
      assert TypedEntry(c, v, SequenceKey(pk)) == TypedEntry(c, w, SequenceKey(pk));
      if pk in L.seqs {
        U64Injective(L.seqs[pk], M.seqs[pk]);
      }
    }
    assert L.seqs == M.seqs;
    forall x: (PubKey, uint64) ensures (x in L.txs <==> x in M.txs) && (x in L.txs ==> L.txs[x] == M.txs[x]) {
      assert TypedEntry(c, v, TxKey(x.0, x.1)) == TypedEntry(c, w, TxKey(x.0, x.1));
      if x in L.txs {
        assert c.decTx(c.encTx(L.txs[x])) == c.decTx(c.encTx(M.txs[x]));
      }
    }
    assert L.txs == M.txs;
    forall h ensures h in L.applied <==> h in M.applied {
      assert TypedEntry(c, v, AppliedKey(h)) == TypedEntry(c, w, AppliedKey(h));
    }
    assert L.applied == M.applied;
    assert TypedEntry(c, v, RewardPoolKey) == TypedEntry(c, w, RewardPoolKey);
    if L.pool.Some? {
      U64Injective(L.pool.value, M.pool.value);
    }
  }

  // ---- The stores -----------------------------------------------------------------------------

  class DB {
    var data: Data
    var now: Time

    method Get(key: seq<byte>) returns (val: Option<seq<byte>>)
      ensures val == Lookup(data, key, now)
    {
      val := Lookup(data, key, now);
    }

    method Set(key: seq<byte>, val: seq<byte>)
      modifies `data
      ensures data == old(data)[key := Forever(val)]
    {
      data := data[key := Forever(val)];
    }

    method SetWithTTL(key: seq<byte>, val: seq<byte>, ttl: nat)
      modifies `data
      ensures data == old(data)[key := Entry(val, Some(now + ttl))]
    {
      data := data[key := Entry(val, Some(now + ttl))];
    }

    method Delete(key: seq<byte>)
      modifies `data
      ensures data == old(data) - {key}
    {
      data := data - {key};
    }
  }

  /** Balances, sequences, transactions, applied marks and the reward pool. */
  class ChainStore {
    const db: DB
    const codec: Codec

    constructor (db: DB, codec: Codec)
      ensures this.db == db && this.codec == codec
    {
      this.db := db;
      this.codec := codec;
    }

    method GetBalance(pk: PubKey, ghost v: View) returns (bal: Amount)
      requires Represents(codec, db.data, v)
      ensures bal == Balance(v.ledger, pk)
    {
      assert FlatEntry(db.data, BalanceKey(pk)) == TypedEntry(codec, v, BalanceKey(pk));
      var val := db.Get(Encode(BalanceKey(pk)));
      if val == None {
        return 0;
      }
      U64RoundTrip(v.ledger.bal[pk]);
      return FromU64(val.value);
    }

    method HasBalance(pk: PubKey, ghost v: View) returns (has: bool)
      requires Represents(codec, db.data, v)
      ensures has <==> pk in v.ledger.bal
    {
      assert FlatEntry(db.data, BalanceKey(pk)) == TypedEntry(codec, v, BalanceKey(pk));
      var val := db.Get(Encode(BalanceKey(pk)));
      return val != None;
    }

    method SaveBalance(pk: PubKey, bal: Amount, ghost v: View)
      requires Represents(codec, db.data, v)
      modifies db`data
      ensures Represents(codec, db.data, v.(ledger := v.ledger.(bal := v.ledger.bal[pk := bal])))
    {
      db.Set(Encode(BalanceKey(pk)), U64(bal));
      WriteRefines(codec, old(db.data), v, v.(ledger := v.ledger.(bal := v.ledger.bal[pk := bal])),
                   BalanceKey(pk), Forever(U64(bal)));
    }

    method GetLatestSeq(pk: PubKey, ghost v: View) returns (n: uint64)
      requires Represents(codec, db.data, v)
      ensures n == LatestSeq(v.ledger, pk)
    {
      assert FlatEntry(db.data, SequenceKey(pk)) == TypedEntry(codec, v, SequenceKey(pk));
      var val := db.Get(Encode(SequenceKey(pk)));
      if val == None {
        return 0;
      }
      U64RoundTrip(v.ledger.seqs[pk]);
      return FromU64(val.value);
    }

    method SaveLatestSeq(pk: PubKey, n: uint64, ghost v: View)
      requires Represents(codec, db.data, v)
      modifies db`data
      ensures Represents(codec, db.data, v.(ledger := v.ledger.(seqs := v.ledger.seqs[pk := n])))
    {
      db.Set(Encode(SequenceKey(pk)), U64(n));
      WriteRefines(codec, old(db.data), v, v.(ledger := v.ledger.(seqs := v.ledger.seqs[pk := n])),
                   SequenceKey(pk), Forever(U64(n)));
    }

    method SaveTx(tx: Transaction, ghost v: View)
      requires Represents(codec, db.data, v)
      modifies db`data
      ensures Represents(codec, db.data, v.(ledger := v.ledger.(txs := v.ledger.txs[(tx.from, tx.sequence) := tx])))
    {
      db.Set(Encode(TxKey(tx.from, tx.sequence)), codec.encTx(tx));
      WriteRefines(codec, old(db.data), v, v.(ledger := v.ledger.(txs := v.ledger.txs[(tx.from, tx.sequence) := tx])),
                   TxKey(tx.from, tx.sequence), Forever(codec.encTx(tx)));
    }

    method GetTx(from: PubKey, n: uint64, ghost v: View) returns (tx: Option<Transaction>)
      requires codec.RoundTrips() && Represents(codec, db.data, v)
      ensures tx == if (from, n) in v.ledger.txs then Some(v.ledger.txs[(from, n)]) else None
    {
      assert FlatEntry(db.data, TxKey(from, n)) == TypedEntry(codec, v, TxKey(from, n));
      var val := db.Get(Encode(TxKey(from, n)));
      if val == None {
        return None;
      }
      return codec.decTx(val.value);
    }

    /** Four writes under one commit: both balances, the sequence and the transaction. */
    method ConfirmTxBatch(tx: Transaction, senderBal: Amount, receiverBal: Amount, ghost v: View)
      requires Represents(codec, db.data, v)
      modifies db`data
      ensures Represents(codec, db.data, v.(ledger := Recorded(v.ledger, tx, senderBal, receiverBal)))
    {
      BatchRefines(codec, db.data, v, tx, senderBal, receiverBal);
      var txn := db.data;
      txn := txn[Encode(BalanceKey(tx.from)) := Forever(U64(senderBal))];
      txn := txn[Encode(BalanceKey(tx.to)) := Forever(U64(receiverBal))];
      txn := txn[Encode(SequenceKey(tx.from)) := Forever(U64(tx.sequence))];
      txn := txn[Encode(TxKey(tx.from, tx.sequence)) := Forever(codec.encTx(tx))];
      db.data := txn;
    }

    method IsConfirmedTxApplied(h: Hash, ghost v: View) returns (applied: bool)
      requires Represents(codec, db.data, v)
      ensures applied <==> h in v.ledger.applied
    {
      assert FlatEntry(db.data, AppliedKey(h)) == TypedEntry(codec, v, AppliedKey(h));
      var val := db.Get(Encode(AppliedKey(h)));
      return val != None;
    }

    method MarkConfirmedTxApplied(h: Hash, ghost v: View)
      requires Represents(codec, db.data, v)
      modifies db`data
      ensures Represents(codec, db.data, v.(ledger := v.ledger.(applied := v.ledger.applied + {h})))
    {
      db.Set(Encode(AppliedKey(h)), [1]);
      WriteRefines(codec, old(db.data), v, v.(ledger := v.ledger.(applied := v.ledger.applied + {h})),
                   AppliedKey(h), Forever([1]));
    }

    method GetRewardPool(ghost v: View) returns (pool: Amount)
      requires Represents(codec, db.data, v)
      ensures pool == Pool(v.ledger)
    {
      assert FlatEntry(db.data, RewardPoolKey) == TypedEntry(codec, v, RewardPoolKey);
      var val := db.Get(Encode(RewardPoolKey));
      if val == None {
        return 0;
      }
      U64RoundTrip(v.ledger.pool.value);
      return FromU64(val.value);
    }

    /** Adds the bond to the pool, or leaves the pool alone and reports the overflow. */
    method AccumulateBond(bond: Amount, ghost v: View) returns (r: Option<Error>)
      requires Represents(codec, db.data, v)
      modifies db`data
      ensures var sum := SafeAdd(Pool(v.ledger), bond);
              && (sum.Ok? ==> r == None && Represents(codec, db.data, v.(ledger := v.ledger.(pool := Some(sum.value)))))
              && (sum.Err? ==> r == Some(sum.error) && db.data == old(db.data))
    {
      var pool := GetRewardPool(v);
      var newPool := SafeAdd(pool, bond);
      if newPool.Err? {
        return Some(newPool.error);
      }
      db.Set(Encode(RewardPoolKey), U64(newPool.value));
      WriteRefines(codec, old(db.data), v, v.(ledger := v.ledger.(pool := Some(newPool.value))),
                   RewardPoolKey, Forever(U64(newPool.value)));
      return None;
    }
  }

  class SnapshotStore {
    const db: DB
    const codec: Codec

    constructor (db: DB, codec: Codec)
      ensures this.db == db && this.codec == codec
    {
      this.db := db;
      this.codec := codec;
    }

    method SaveSnapshot(snap: Snapshot, ghost v: View)
      requires Represents(codec, db.data, v)
      modifies db`data
      ensures Represents(codec, db.data, v.(snaps := v.snaps[snap.owner := snap]))
    {
      db.Set(Encode(SnapshotKey(snap.owner)), codec.encSnap(snap));
      WriteRefines(codec, old(db.data), v, v.(snaps := v.snaps[snap.owner := snap]),
                   SnapshotKey(snap.owner), Forever(codec.encSnap(snap)));
    }

    method GetLatest(pk: PubKey, ghost v: View) returns (snap: Option<Snapshot>)
      requires codec.RoundTrips() && Represents(codec, db.data, v)
      ensures snap == if pk in v.snaps then Some(v.snaps[pk]) else None
    {
      assert FlatEntry(db.data, SnapshotKey(pk)) == TypedEntry(codec, v, SnapshotKey(pk));
      var val := db.Get(Encode(SnapshotKey(pk)));
      if val == None {
        return None;
      }
      return codec.decSnap(val.value);
    }
  }

  class WitnessStore {
    const db: DB
    const codec: Codec

    constructor (db: DB, codec: Codec)
      ensures this.db == db && this.codec == codec
    {
      this.db := db;
      this.codec := codec;
    }

    method SaveActiveWitnesses(ws: seq<Witness>, ghost v: View)
      requires Represents(codec, db.data, v)
      modifies db`data
      ensures Represents(codec, db.data, v.(witnesses := Some(ws)))
    {
      db.Set(Encode(WitnessesKey), codec.encWits(ws));
      WriteRefines(codec, old(db.data), v, v.(witnesses := Some(ws)), WitnessesKey, Forever(codec.encWits(ws)));
    }

    /** The keys of the registered witnesses; an unset list is an empty set. */
    method GetActiveSet(ghost v: View) returns (active: set<PubKey>)
      requires codec.RoundTrips() && Represents(codec, db.data, v)
      ensures active == ActiveSet(v)
      ensures forall pk :: pk in active <==>
                v.witnesses.Some? && exists i :: 0 <= i < |v.witnesses.value| && v.witnesses.value[i].key == pk
    {
      assert FlatEntry(db.data, WitnessesKey) == TypedEntry(codec, v, WitnessesKey);
      active := {};
      var val := db.Get(Encode(WitnessesKey));
      if val == None {
        return;
      }
      var decoded := codec.decWits(val.value);
      var ws := decoded.value;
      for i := 0 to |ws|
        invariant forall pk :: pk in active <==> exists j :: 0 <= j < i && ws[j].key == pk
      {
        active := active + {ws[i].key};
      }
      forall pk ensures pk in active <==> pk in ActiveSet(v) {
        if pk in active {
          var j :| 0 <= j < |ws| && ws[j].key == pk;
          assert ws[j] in ws;
        }
      }
    }
  }

  ghost function ActiveSet(v: View): set<PubKey> {
    match v.witnesses
    case Some(ws) => set w | w in ws :: w.key
    case None => {}
  }

  const NONCE_LOCK_TTL: nat := 15

  /** A lock is held until it expires. */
  predicate Held(locks: map<(PubKey, uint64), Time>, k: (PubKey, uint64), now: Time) {
    k in locks && now < locks[k]
  }

  /** A lock request: granted for the lifetime if the nonce is free, without effect otherwise. */
  function TryLock(locks: map<(PubKey, uint64), Time>, k: (PubKey, uint64), now: Time): map<(PubKey, uint64), Time> {
    if Held(locks, k, now) then locks else locks[k := now + NONCE_LOCK_TTL]
  }

  class NonceLockStore {
    const db: DB
    const codec: Codec

    constructor (db: DB, codec: Codec)
      ensures this.db == db && this.codec == codec
    {
      this.db := db;
      this.codec := codec;
    }

    method Lock(pk: PubKey, nonce: uint64, ghost v: View) returns (r: Option<Error>)
      requires Represents(codec, db.data, v)
      modifies db`data
      ensures r == if Held(v.locks, (pk, nonce), db.now) then Some(NonceLocked) else None
      ensures Represents(codec, db.data, v.(locks := TryLock(v.locks, (pk, nonce), db.now)))
    {
      var k := NonceLockKey(pk, nonce);
      assert FlatEntry(db.data, k) == TypedEntry(codec, v, k);
      var existing := db.Get(Encode(k));
      if existing != None {
        return Some(NonceLocked);
      }
      db.SetWithTTL(Encode(k), [1], NONCE_LOCK_TTL);
      WriteRefines(codec, old(db.data), v, v.(locks := v.locks[(pk, nonce) := db.now + NONCE_LOCK_TTL]),
                   k, Entry([1], Some(db.now + NONCE_LOCK_TTL)));
      return None;
    }

    method Unlock(pk: PubKey, nonce: uint64, ghost v: View)
      requires Represents(codec, db.data, v)
      modifies db`data
      ensures Represents(codec, db.data, v.(locks := v.locks - {(pk, nonce)}))
    {
      db.Delete(Encode(NonceLockKey(pk, nonce)));
      DeleteRefines(codec, old(db.data), v, v.(locks := v.locks - {(pk, nonce)}), NonceLockKey(pk, nonce));
    }

    method IsLocked(pk: PubKey, nonce: uint64, ghost v: View) returns (locked: bool)
      requires Represents(codec, db.data, v)
      ensures locked <==> Held(v.locks, (pk, nonce), db.now)
    {
      var k := NonceLockKey(pk, nonce);
      assert FlatEntry(db.data, k) == TypedEntry(codec, v, k);
      var val := db.Get(Encode(k));
      return val != None;
    }
  }
}
