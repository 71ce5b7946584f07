/** A node: its packet handlers, its pending transactions, and sending and confirming its own transactions. */
module Nodes {
  import opened Bytes
  import opened Types
  import opened Graph
  import opened Insertion
  import opened Dag
  import opened Ordering
  import opened Crypto
  import opened Quorum
  import opened Ledgers
  import opened Store
  import opened Transfers
  import opened Processor
  import opened Gossips
  import opened Packets
  import opened Pending

  /** The tip a witness names: the smallest one, or zeros if the graph has none. */
  ghost predicate IsNamedTip(E: Edges, tip: Hash) {
    if exists h :: IsTip(E, h)
    then IsTip(E, tip) && forall h :: IsTip(E, h) ==> h == tip || Less(tip, h)
    else tip == ZeroHash()
  }

  /** Honest signatures of any three different registered witnesses meet the quorum a confirmation is checked for. */
  lemma RegisteredQuorum(v: View, ws: seq<Witness>, scheme: Scheme, kps: seq<KeyPair>, tips: seq<Hash>,
                         sigs: seq<WitnessSignature>, txHash: Hash)
    requires v.witnesses == Some(ws) && |kps| == |tips| == |sigs| == 3
    requires forall i :: 0 <= i < 3 ==> Signs(scheme, kps[i]) && IsRegistered(ws, kps[i].pub)
    requires forall i :: 0 <= i < 3 ==> sigs[i] == SignAsWitness(scheme, kps[i], txHash, tips[i], true)
    requires forall i, j :: 0 <= i < j < 3 ==> kps[i].pub != kps[j].pub
    ensures QuorumMet(scheme, sigs, txHash, ActiveSet(v), 3)
  {
    HonestQuorum(scheme, kps, tips, sigs, txHash, ActiveSet(v));
  }

  ghost predicate IsRegistered(ws: seq<Witness>, pk: PubKey) {
    exists i :: 0 <= i < |ws| && ws[i].key == pk
  }

  /** And whatever meets it was signed by three different registered witnesses. */
  lemma QuorumIsRegistered(v: View, scheme: Scheme, sigs: seq<WitnessSignature>, txHash: Hash)
    returns (signers: set<PubKey>)
    requires QuorumMet(scheme, sigs, txHash, ActiveSet(v), 3)
    ensures |signers| >= 3 && v.witnesses.Some?
    ensures AllSigned(scheme, sigs, txHash, signers)
    ensures forall w :: w in signers ==> IsRegistered(v.witnesses.value, w)
  {
    QuorumMeans(scheme, sigs, txHash, ActiveSet(v), QUORUM_K);
    signers :| |signers| >= QUORUM_K && signers <= ActiveSet(v) && AllSigned(scheme, sigs, txHash, signers);
    assert ActiveSet(v) == signers + (ActiveSet(v) - signers);
    forall w | w in signers ensures IsRegistered(v.witnesses.value, w) {
      var x :| x in v.witnesses.value && x.key == w;
      var i :| 0 <= i < |v.witnesses.value| && v.witnesses.value[i] == x;
    }
  }

  class Node {
    const kp: KeyPair
    const txProc: TxProcessor
    const nonceLocks: NonceLockStore
    const witnesses: WitnessStore
    const gossip: Gossip
    var peers: set<PubKey>
    var pendingTx: map<Hash, PendingMeta>

    constructor (kp: KeyPair, txProc: TxProcessor, nonceLocks: NonceLockStore, witnesses: WitnessStore, gossip: Gossip)
      requires txProc.Valid() && txProc.chain.codec.RoundTrips()
      requires nonceLocks.db == txProc.chain.db && nonceLocks.codec == txProc.chain.codec
      requires witnesses.db == txProc.chain.db && witnesses.codec == txProc.chain.codec
      ensures Valid() && peers == {} && pendingTx == map[]
      ensures this.kp == kp && this.txProc == txProc && this.gossip == gossip
    {
      this.kp := kp;
      this.txProc := txProc;
      this.nonceLocks := nonceLocks;
      this.witnesses := witnesses;
      this.gossip := gossip;
      peers := {};
      pendingTx := map[];
    }

    /** All stores work on the same database. */
    ghost predicate Valid()
      reads txProc, txProc.chain.db
    {
      && txProc.Valid() && txProc.chain.codec.RoundTrips()
      && nonceLocks.db == txProc.chain.db && nonceLocks.codec == txProc.chain.codec
      && witnesses.db == txProc.chain.db && witnesses.codec == txProc.chain.codec
    }

    function Now(): Time
      reads txProc.chain.db
    {
      txProc.chain.db.now
    }

    /** Hands the packet to eight peers chosen at random, or to all if there are no more. */
    method Broadcast(pkt: Packet) returns (out: Sends)
      ensures IsBroadcast(out, pkt, peers)
    {
      var list: seq<PubKey> := [];
      var rest := peers;
      while rest != {}
        invariant rest <= peers
        invariant forall k :: 0 <= k < |list| ==> list[k] in peers && list[k] !in rest
        invariant forall i, j :: 0 <= i < j < |list| ==> list[i] != list[j]
        invariant |list| + |rest| == |peers|
        decreases rest
      {
        var p :| p in rest;
        rest := rest - {p};
        list := list + [p];
      }
      var selected := SelectPeers(list, GOSSIP_FANOUT);
      out := [];
      for i := 0 to |selected|
        invariant |out| == i
        invariant forall k :: 0 <= k < i ==> out[k] == (selected[k], pkt) && selected[k] in peers
      {
        assert selected[i] in list;
        out := out + [(selected[i], pkt)];
      }
    }

    method HandleNonceLock(pkt: Packet) returns (out: Sends)
      requires Valid() && pkt.payload.NonceLockMsg?
      modifies gossip, txProc`view, txProc.chain.db`data
      ensures Valid()
      ensures Relays(old(gossip.seen), pkt, Now(), peers, gossip.seen, out)
      ensures var v := old(txProc.view);
              txProc.view == if Forward(old(gossip.seen), pkt.msgId, Now()).1
                             then v.(locks := TryLock(v.locks, (pkt.payload.from, pkt.payload.nonce), Now())) else v
    {
      var should, _ := gossip.ShouldForward(pkt.msgId, txProc.chain.db.now);
      if !should {
        return [];
      }
      var NonceLockMsg(from, nonce) := pkt.payload;
      var ignored := nonceLocks.Lock(from, nonce, txProc.view);
      txProc.view := txProc.view.(locks := TryLock(txProc.view.locks, (from, nonce), Now()));
      out := Broadcast(pkt);
    }

    /** This node is an active witness and the transaction passes its checks. */
    ghost predicate Accepts(tx: Transaction, snapshot: Option<Snapshot>)
      reads txProc, txProc.chain.db
    {
      kp.pub in ActiveSet(txProc.view) && Verify(txProc.view.ledger, txProc.scheme, tx, snapshot, Now()) == None
    }

    /** The signature packet of an accepted transaction: the smallest tip, and whether the nonce lock is held here. */
    method SignAccepted(tx: Transaction) returns (witPkt: Packet)
      requires Valid()
      ensures IsSigPacket(witPkt, tx.hash, kp.pub) && IsOwnSignature(tx, witPkt.payload.sig)
      ensures Signs(txProc.scheme, kp) ==> WitnessSigValid(txProc.scheme, witPkt.payload.sig, tx.hash)
      ensures var id := (tx.from, tx.nonce);
              var locks := txProc.view.locks;
              witPkt.payload.sig.nonceLockSeen <==> id in locks && Now() < locks[id]
      ensures IsNamedTip(txProc.dag.edges, witPkt.payload.sig.dagTip)
    {
      var tips := txProc.dag.CurrentTips();
      var tip := ZeroHash();
      if |tips| > 0 {
        tip := tips[0];
      }
      assert IsNamedTip(txProc.dag.edges, tip) by {
        forall h | IsTip(txProc.dag.edges, h) ensures h == tip || Less(tip, h) {
          assert h in tips;
        }
        assert |tips| > 0 ==> tips[0] in tips;
      }
      var nonceLockSeen := nonceLocks.IsLocked(tx.from, tx.nonce, txProc.view);
      var sig := SignAsWitness(txProc.scheme, kp, tx.hash, tip, nonceLockSeen);
      var sigMsgId := ComputeSigMsgId(tx.hash, sig.signer);
      witPkt := Packet(sigMsgId, WitnessSigMsg(tx.hash, sig));
    }

    ghost predicate IsOwnSignature(tx: Transaction, sig: WitnessSignature)
      reads txProc, txProc.chain.db, txProc.dag
    {
      exists tip :: IsNamedTip(txProc.dag.edges, tip) &&
        sig == SignAsWitness(txProc.scheme, kp, tx.hash, tip, Held(txProc.view.locks, (tx.from, tx.nonce), Now()))
    }

    /** A witness signs exactly what it verified, and records in the signature whether it holds the nonce lock. */
    method HandleTxVerify(pkt: Packet) returns (out: Sends)
      requires Valid() && pkt.payload.TxVerifyMsg?
      modifies gossip
      ensures Valid() && txProc.view == old(txProc.view)
      ensures Witnesses(kp.pub, Accepts(pkt.payload.tx, pkt.payload.snapshot), old(gossip.seen), pkt, Now(), peers,
                        gossip.seen, out)
      ensures forall s :: s in out && s.1.payload.WitnessSigMsg? ==> IsOwnSignature(pkt.payload.tx, s.1.payload.sig)
      ensures out != [] ==>
                var W, tx, snapshot := txProc.view.ledger, pkt.payload.tx, pkt.payload.snapshot;
                && txProc.view.witnesses.Some? && IsRegistered(txProc.view.witnesses.value, kp.pub)
                && IsSigned(txProc.scheme, tx) && !IsExpiredAt(snapshot, Now()) && ContinuesSequence(W, tx)
                && (Cost(tx) > 9_000_000_000_000_000 || KnownBalancesCover(W, tx, snapshot))
    {
      var should, _ := gossip.ShouldForward(pkt.msgId, txProc.chain.db.now);
      if !should {
        return [];
      }
      var TxVerifyMsg(tx, snapshot) := pkt.payload;
      var validSet := witnesses.GetActiveSet(txProc.view);
      if kp.pub !in validSet {
        return [];
      }
      var r := txProc.VerifyTxInternal(tx, snapshot, txProc.chain.db.now);
      if r != None {
        return [];
      }
      VerdictMeans(txProc.view.ledger, txProc.scheme, tx, snapshot, Now());
      var witPkt := SignAccepted(tx);
      var first: Sends;
      if tx.from in peers {
        first := [(tx.from, witPkt)];
      } else {
        first := Broadcast(witPkt);
      }
      var second := Broadcast(pkt);
      out := first + second;
      assert IsSigSend(first, witPkt, tx.from, peers);
    }

    /** Run without interruption here; the interleavings of its critical sections are the subject of `Pending`. */
    method HandleWitnessSig(pkt: Packet) returns (out: Sends, confirm: Option<(Transaction, seq<WitnessSignature>)>)
      requires Valid() && pkt.payload.WitnessSigMsg?
      modifies gossip, this`pendingTx, pendingTx.Values
      ensures Valid() && txProc.view == old(txProc.view)
      ensures Responds(kp.pub, false, pkt.payload.txHash in old(pendingTx), old(gossip.seen), pkt, Now(), peers,
                       gossip.seen, out)
      ensures pkt.payload.txHash !in old(pendingTx) ==> confirm == None && pendingTx == old(pendingTx)
      ensures pkt.payload.txHash in old(pendingTx) ==>
                var meta := old(pendingTx)[pkt.payload.txHash];
                var (m, claim) := Collect(old(meta.Value()), pkt.payload.sig);
                && meta.Value() == m
                && confirm == (if claim then Some((m.tx, m.sigs)) else None)
                && pendingTx == (if claim then old(pendingTx) - {pkt.payload.txHash} else old(pendingTx))
      ensures forall other :: other in old(pendingTx.Values)
                && !(pkt.payload.txHash in old(pendingTx) && other == old(pendingTx)[pkt.payload.txHash])
                ==> other.Value() == old(other.Value())
    {
      var WitnessSigMsg(txHash, sig) := pkt.payload;
      if txHash !in pendingTx {
        var should, _ := gossip.ShouldForward(pkt.msgId, txProc.chain.db.now);
        if should {
          out := Broadcast(pkt);
        } else {
          out := [];
        }
        return out, None;
      }
      var meta := pendingTx[txHash];
      assert meta in pendingTx.Values;
      var shouldConfirm, sigsCopy := meta.Append(sig);
      if shouldConfirm {
        pendingTx := pendingTx - {txHash};
        return [], Some((meta.tx, sigsCopy));
      }
      return [], None;
    }

    method HandleTxConfirmed(pkt: Packet) returns (out: Sends)
      requires Valid() && pkt.payload.ConfirmedMsg?
      modifies gossip, txProc`view, txProc.chain.db`data
      ensures Valid()
      ensures Relays(old(gossip.seen), pkt, Now(), peers, gossip.seen, out)
      ensures var v := old(txProc.view);
              txProc.view == if Forward(old(gossip.seen), pkt.msgId, Now()).1
                             then v.(ledger := Apply(v.ledger, pkt.payload.tx).0) else v
    {
      var should, _ := gossip.ShouldForward(pkt.msgId, txProc.chain.db.now);
      if !should {
        return [];
      }
      var ignored := txProc.ApplyConfirmedTxBalance(pkt.payload.tx);
      out := Broadcast(pkt);
    }

    /** Nothing is confirmed, and nothing announced, without a quorum of the active witnesses. */
    method ConfirmTx(tx: Transaction, sigs: seq<WitnessSignature>) returns (out: Sends, due: Option<SnapshotTask>)
      requires Valid()
      modifies txProc`view, txProc.chain.db`data, txProc.dag
      ensures Valid()
      ensures var quorum := QuorumMet(txProc.scheme, sigs, tx.hash, ActiveSet(old(txProc.view)), 3);
              var signed := tx.(witnessSigs := sigs);
              var (s, r) := Confirm(old(txProc.State()), signed);
              && (!quorum ==> out == [] && txProc.view == old(txProc.view) && txProc.State() == old(txProc.State()))
              && (quorum ==> txProc.State() == s)
              && (quorum && r == None ==>
                    IsBroadcast(out, Packet(tx.hash, ConfirmedMsg(signed.(status := Confirmed))), peers))
              && (r != None ==> out == [])
              && IsDue(due, old(txProc.view).ledger, signed, quorum && r == None)
      ensures txProc.view == old(txProc.view).(ledger := txProc.view.ledger)
    {
      var validSet := witnesses.GetActiveSet(txProc.view);
      var bad := VerifyQuorum(txProc.scheme, sigs, tx.hash, validSet, QUORUM_K);
      if bad != None {
        return [], None;
      }
      var signed := tx.(witnessSigs := sigs);
      var r;
      r, due := txProc.ConfirmTx(signed);
      if r != None {
        return [], None;
      }
      out := Broadcast(Packet(tx.hash, ConfirmedMsg(signed.(status := Confirmed))));
    }

    method AcquireNonceLock(tx: Transaction) returns (r: Option<Error>)
      requires Valid()
      modifies txProc`view, txProc.chain.db`data
      ensures Valid()
      ensures r == if Held(old(txProc.view).locks, (tx.from, tx.nonce), Now()) then Some(NonceLocked) else None
      ensures txProc.view == old(txProc.view).(locks := TryLock(old(txProc.view).locks, (tx.from, tx.nonce), Now()))
    {
      r := nonceLocks.Lock(tx.from, tx.nonce, txProc.view);
      txProc.view := txProc.view.(locks := TryLock(txProc.view.locks, (tx.from, tx.nonce), Now()));
    }

    /** This node's own balance and sequence on its current tips, good for six hours from now. */
    ghost predicate IsOwnSnapshot(snapshot: Snapshot)
      reads txProc, txProc.chain.db, txProc.dag
    {
      && snapshot.owner == kp.pub
      && snapshot.balance == Balance(txProc.view.ledger, kp.pub)
      && snapshot.sequence == LatestSeq(txProc.view.ledger, kp.pub)
      && IsTipList(txProc.dag.edges, snapshot.dagTips)
      && snapshot.createdAt == Now() && snapshot.expiresAt == Now() + 21600
    }

    method Announce(tx: Transaction) returns (out: Sends, snapshot: Snapshot)
      requires Valid()
      ensures Announces(tx, snapshot, out, peers) && IsOwnSnapshot(snapshot)
    {
      var first := Broadcast(Packet(tx.hash, NonceLockMsg(tx.from, tx.nonce)));
      var bal := txProc.chain.GetBalance(kp.pub, txProc.view);
      var currentTips := txProc.dag.CurrentTips();
      var sequence := txProc.chain.GetLatestSeq(kp.pub, txProc.view);
      var now := txProc.chain.db.now;
      snapshot := Snapshot(kp.pub, sequence, bal, currentTips, now, now + SNAPSHOT_TTL);
      var second := Broadcast(Packet(tx.hash, TxVerifyMsg(tx, Some(snapshot))));
      out := first + second;
    }

    method Register(tx: Transaction)
      modifies this`pendingTx
      ensures tx.hash in pendingTx && fresh(pendingTx[tx.hash]) && pendingTx[tx.hash].Value() == NewMeta(tx)
      ensures pendingTx == old(pendingTx)[tx.hash := pendingTx[tx.hash]]
    {
      var meta := new PendingMeta(tx);
      pendingTx := pendingTx[tx.hash := meta];
    }

    /** Locks the nonce, registers the entry, announces the lock, then asks for verification. */
    method Submit(tx: Transaction) returns (r: Option<Error>, out: Sends, snapshot: Option<Snapshot>)
      requires Valid()
      modifies this`pendingTx, txProc`view, txProc.chain.db`data
      ensures Valid()
      ensures var v := old(txProc.view);
              var id := (tx.from, tx.nonce);
              && r == (if Held(v.locks, id, Now()) then Some(NonceLocked) else None)
              && txProc.view == v.(locks := TryLock(v.locks, id, Now()))
      ensures r != None ==> out == [] && pendingTx == old(pendingTx)
      ensures r == None ==>
                && tx.hash in pendingTx && fresh(pendingTx[tx.hash]) && pendingTx[tx.hash].Value() == NewMeta(tx)
                && pendingTx == old(pendingTx)[tx.hash := pendingTx[tx.hash]]
                && snapshot.Some? && Announces(tx, snapshot.value, out, peers) && IsOwnSnapshot(snapshot.value)
    {
      r := AcquireNonceLock(tx);
      if r != None {
        return r, [], None;
      }
      Register(tx);
      var sent;
      out, sent := Announce(tx);
      snapshot := Some(sent);
    }

    method SendTx(to: PubKey, amount: Amount, nonce: uint64)
      returns (r: Result<Transaction>, out: Sends,
               ghost tips: seq<Hash>, ghost built: Result<Transaction>, ghost snapshot: Option<Snapshot>)
      requires Valid()
      modifies this`pendingTx, txProc`view, txProc.chain.db`data
      ensures Valid()
      ensures IsTipList(txProc.dag.edges, tips)
      ensures built == Build(old(txProc.view).ledger, tips, txProc.scheme, kp, to, amount, nonce, Now())
      ensures built.Err? ==> r == built
      ensures built.Ok? ==>
                var id := (built.value.from, built.value.nonce);
                r == if Held(old(txProc.view).locks, id, Now()) then Err(NonceLocked) else built
      ensures r.Err? ==> out == [] && txProc.view == old(txProc.view) && pendingTx == old(pendingTx)
      ensures r.Ok? ==>
                && txProc.view == old(txProc.view).(locks :=
                     TryLock(old(txProc.view).locks, (r.value.from, r.value.nonce), Now()))
                && r.value.hash in pendingTx
                && fresh(pendingTx[r.value.hash]) && pendingTx[r.value.hash].Value() == NewMeta(r.value)
                && pendingTx == old(pendingTx)[r.value.hash := pendingTx[r.value.hash]]
                && snapshot.Some? && Announces(r.value, snapshot.value, out, peers) && IsOwnSnapshot(snapshot.value)
    {
      r, tips := txProc.BuildTx(kp, to, amount, nonce, txProc.chain.db.now);
      built := r;
      if r.Err? {
        return r, [], tips, built, None;
      }
      var locked, sent;
      locked, out, sent := Submit(r.value);
      snapshot := sent;
      if locked != None {
        r := Err(locked.value);
      }
    }
  }
}
