/** The gossiped packets and how a node may respond to each. */
module Packets {
  import opened Bytes
  import opened Types
  import opened Gossips

  datatype Payload =
    | NonceLockMsg(from: PubKey, nonce: uint64)
    | TxVerifyMsg(tx: Transaction, snapshot: Option<Snapshot>)
    | WitnessSigMsg(txHash: Hash, sig: WitnessSignature)
    | ConfirmedMsg(tx: Transaction)

  datatype Packet = Packet(msgId: Hash, payload: Payload)

  /** Packets handed to the connections of a node: the receiver and the packet. */
  type Sends = seq<(PubKey, Packet)>

  function Pow2(n: nat): (p: nat)
    ensures p > 0
  {
    if n == 0 then 1 else 2 * Pow2(n - 1)
  }

  /** Exclusive or of the lowest `bits` bits. */
  function XorBits(a: nat, b: nat, bits: nat): (x: nat)
    ensures x < Pow2(bits)
  {
    if bits == 0 then 0 else 2 * XorBits(a / 2, b / 2, bits - 1) + (if a % 2 != b % 2 then 1 else 0)
  }

  function XorByte(a: byte, b: byte): byte {
    assert Pow2(8) == 256;
    XorBits(a, b, 8)
  }

  function XorFrom(a: seq<byte>, b: seq<byte>): (s: seq<byte>)
    requires |a| == |b|
    ensures |s| == |a|
    ensures forall i :: 0 <= i < |a| ==> s[i] == XorByte(a[i], b[i])
  {
    if a == [] then [] else [XorByte(a[0], b[0])] + XorFrom(a[1..], b[1..])
  }

  /** The id of a witness's signature packet: the transaction hash combined with the witness key. */
  function SigMsgId(txHash: Hash, signer: PubKey): Hash {
    XorFrom(txHash, signer)
  }

  method ComputeSigMsgId(txHash: Hash, signer: PubKey) returns (id: Hash)
    ensures id == SigMsgId(txHash, signer)
  {
    var buf := new byte[32](_ => 0);
    for i := 0 to 32
      invariant forall j :: 0 <= j < i ==> buf[j] == XorByte(txHash[j], signer[j])
    {
      buf[i] := XorByte(txHash[i], signer[i]);
    }
    id := buf[..];
  }

  /** Different witnesses use different ids for the same transaction, so their budgets are separate. */
  lemma SigMsgIdInjective(txHash: Hash, v: PubKey, w: PubKey)
    requires SigMsgId(txHash, v) == SigMsgId(txHash, w)
    ensures v == w
  {
    forall i | 0 <= i < 32 ensures v[i] == w[i] {
      assert SigMsgId(txHash, v)[i] == XorByte(txHash[i], v[i]);
      assert SigMsgId(txHash, w)[i] == XorByte(txHash[i], w[i]);
      assert Pow2(8) == 256;
      XorBitsInjective(txHash[i], v[i], w[i], 8);
    }
  }

  lemma {:induction false} XorBitsInjective(a: nat, b: nat, c: nat, bits: nat)
    requires b < Pow2(bits) && c < Pow2(bits) && XorBits(a, b, bits) == XorBits(a, c, bits)
    ensures b == c
  {
    if bits > 0 {
      XorBitsInjective(a / 2, b / 2, c / 2, bits - 1);
    }
  }

  /** Bit `i` of a number, from the lowest. */
  function Bit(n: nat, i: nat): nat {
    if i == 0 then n % 2 else Bit(n / 2, i - 1)
  }

  /** Each bit of the combination is 1 exactly if the two bits differ. */
  lemma {:induction false} XorBit(a: nat, b: nat, bits: nat, i: nat)
    requires i < bits
    ensures Bit(XorBits(a, b, bits), i) == if Bit(a, i) != Bit(b, i) then 1 else 0
    decreases bits
  {
    if i > 0 {
      XorBit(a / 2, b / 2, bits - 1, i - 1);
    }
  }

  lemma {:induction false} XorBitsCancels(a: nat, b: nat, bits: nat)
    requires a < Pow2(bits)
    ensures XorBits(XorBits(a, b, bits), b, bits) == a
    decreases bits
  {
    if bits > 0 {
      XorBitsCancels(a / 2, b / 2, bits - 1);
    }
  }

  /** Byte by byte and bit by bit, the id is the exclusive or of hash and key. */
  lemma SigMsgIdBits(txHash: Hash, signer: PubKey, k: nat, i: nat)
    requires k < 32 && i < 8
    ensures Bit(SigMsgId(txHash, signer)[k], i) == if Bit(txHash[k], i) != Bit(signer[k], i) then 1 else 0
  {
    XorBit(txHash[k], signer[k], 8, i);
  }

  /** Combining the id with the witness's key gives back the transaction's hash. */
  lemma SigMsgIdUndone(txHash: Hash, signer: PubKey)
    ensures SigMsgId(SigMsgId(txHash, signer), signer) == txHash
  {
    var id := SigMsgId(txHash, signer);
    forall k | 0 <= k < 32 ensures SigMsgId(id, signer)[k] == txHash[k] {
      assert Pow2(8) == 256;
      XorBitsCancels(txHash[k], signer[k], 8);
    }
  }

  /** One witness uses different ids for different transactions. */
  lemma SigMsgIdSeparates(txHash: Hash, other: Hash, signer: PubKey)
    requires SigMsgId(txHash, signer) == SigMsgId(other, signer)
    ensures txHash == other
  {
    SigMsgIdUndone(txHash, signer);
    SigMsgIdUndone(other, signer);
  }

  /** Different witnesses do share ids: exactly for the one other transaction whose hash makes up for the key. */
  lemma SigMsgIdsMeet(txHash: Hash, signer: PubKey, other: Hash, otherSigner: PubKey)
    ensures SigMsgId(txHash, signer) == SigMsgId(other, otherSigner)
       <==> other == SigMsgId(SigMsgId(txHash, signer), otherSigner)
  {
    SigMsgIdUndone(other, otherSigner);
    if other == SigMsgId(SigMsgId(txHash, signer), otherSigner) {
      SigMsgIdUndone(SigMsgId(txHash, signer), otherSigner);
    }
  }

  /** Every event is a query about this witness's signature of some other transaction than `txHash`. */
  ghost predicate AboutOthers(events: seq<GossipEvent>, signer: PubKey, txHash: Hash) {
    forall n :: 0 <= n < |events| ==>
      events[n].Query? && exists h: Hash :: h != txHash && events[n].id == SigMsgId(h, signer)
  }

  /** Relaying a witness's signatures of other transactions leaves the budget for this one untouched. */
  lemma OtherTransactionsKeepBudget(seen: Seen, events: seq<GossipEvent>, signer: PubKey, txHash: Hash)
    requires AboutOthers(events, signer, txHash)
    ensures Left(Before(seen, events, |events|), SigMsgId(txHash, signer)) == Left(seen, SigMsgId(txHash, signer))
  {
    var id := SigMsgId(txHash, signer);
    forall k | 0 <= k < |events| ensures events[k].Query? && events[k].id != id {
      var h: Hash :| h != txHash && events[k].id == SigMsgId(h, signer);
      if events[k].id == id {
        SigMsgIdSeparates(h, txHash, signer);
      }
    }
    OtherIdsKeepBudget(seen, events, id, |events|);
  }

  /** A broadcast goes to eight different peers, or to all of them if there are fewer. */
  ghost predicate IsBroadcast(out: Sends, pkt: Packet, peers: set<PubKey>) {
    && |out| == (if 8 < |peers| then 8 else |peers|)
    && (forall s :: s in out ==> s.0 in peers && s.1 == pkt)
    && (forall i, j :: 0 <= i < j < |out| ==> out[i].0 != out[j].0)
  }

  /** The packet in which the witness `signer` sends its signature of `txHash`. */
  ghost predicate IsSigPacket(pkt: Packet, txHash: Hash, signer: PubKey) {
    && pkt.payload.WitnessSigMsg? && pkt.payload.txHash == txHash && pkt.payload.sig.signer == signer
    && pkt.msgId == SigMsgId(txHash, signer)
  }

  /** A witness's own signature goes to the sender of the transaction if it is a peer, and is broadcast otherwise. */
  ghost predicate IsSigSend(out: Sends, pkt: Packet, from: PubKey, peers: set<PubKey>) {
    if from in peers then out == [(from, pkt)] else IsBroadcast(out, pkt, peers)
  }

  /** A re-broadcast guarded by the forwarding budget of the packet's id. */
  ghost predicate Relays(seen: Seen, pkt: Packet, now: Time, peers: set<PubKey>, seen': Seen, out: Sends) {
    && seen' == Forward(seen, pkt.msgId, now).0
    && if Forward(seen, pkt.msgId, now).1 then IsBroadcast(out, pkt, peers) else out == []
  }

  /** The signature of the witness `me`, then the request itself. */
  ghost predicate SignsAndRelays(me: PubKey, pkt: Packet, peers: set<PubKey>, out: Sends)
    requires pkt.payload.TxVerifyMsg?
  {
    exists sigPkt, first, second ::
      && out == first + second
      && IsSigPacket(sigPkt, pkt.payload.tx.hash, me)
      && IsSigSend(first, sigPkt, pkt.payload.tx.from, peers)
      && IsBroadcast(second, pkt, peers)
  }

  /** A verification request is passed on only by a witness that accepts it; everybody else keeps it to itself. */
  ghost predicate Witnesses(me: PubKey, accepts: bool, seen: Seen, pkt: Packet, now: Time, peers: set<PubKey>,
                            seen': Seen, out: Sends)
    requires pkt.payload.TxVerifyMsg?
  {
    && seen' == Forward(seen, pkt.msgId, now).0
    && if Forward(seen, pkt.msgId, now).1 && accepts then SignsAndRelays(me, pkt, peers, out) else out == []
  }

  /**
   What the node `me` does with a packet: `accepts` says that it is an active witness and the request
   passes its checks, `open` that it has a pending entry for a signature's transaction.
   */
  ghost predicate Responds(me: PubKey, accepts: bool, open: bool, seen: Seen, pkt: Packet, now: Time,
                           peers: set<PubKey>, seen': Seen, out: Sends)
  {
    match pkt.payload
    case NonceLockMsg(_, _) => Relays(seen, pkt, now, peers, seen', out)
    case ConfirmedMsg(_) => Relays(seen, pkt, now, peers, seen', out)
    case TxVerifyMsg(_, _) => Witnesses(me, accepts, seen, pkt, now, peers, seen', out)
    case WitnessSigMsg(_, _) => if open then seen' == seen && out == [] else Relays(seen, pkt, now, peers, seen', out)
  }

  /** The two broadcasts with which a transaction is sent: the nonce lock, then the request with a snapshot. */
  ghost predicate Announces(tx: Transaction, snapshot: Snapshot, out: Sends, peers: set<PubKey>) {
    exists first, second ::
      && out == first + second
      && IsBroadcast(first, Packet(tx.hash, NonceLockMsg(tx.from, tx.nonce)), peers)
      && IsBroadcast(second, Packet(tx.hash, TxVerifyMsg(tx, Some(snapshot))), peers)
  }

  /** With at most eight peers a broadcast reaches all of them. */
  lemma BroadcastReachesAll(out: Sends, pkt: Packet, peers: set<PubKey>, p: PubKey)
    requires IsBroadcast(out, pkt, peers) && |peers| <= 8 && p in peers
    ensures (p, pkt) in out
  {
    var reached := Receivers(out);
    forall q | q in reached ensures q in peers {
      var i :| 0 <= i < |out| && out[i].0 == q;
      assert out[i] in out;
    }
    assert peers == reached + (peers - reached);
    assert p in reached;
    var i :| 0 <= i < |out| && out[i].0 == p;
    assert out[i] in out;
  }

  lemma {:induction false} Receivers(out: Sends) returns (reached: set<PubKey>)
    requires forall i, j :: 0 <= i < j < |out| ==> out[i].0 != out[j].0
    ensures |reached| == |out| && forall p :: p in reached <==> exists i :: 0 <= i < |out| && out[i].0 == p
    decreases |out|
  {
    reached := {};
    if out != [] {
      var init := out[..|out| - 1];
      reached := Receivers(init);
      reached := reached + {out[|out| - 1].0};
    }
  }

  /** A packet whose id is new is relayed, to every peer if there are at most eight. */
  lemma RelayReachesAll(seen: Seen, pkt: Packet, now: Time, peers: set<PubKey>, seen': Seen, out: Sends, p: PubKey)
    requires pkt.msgId !in seen && Relays(seen, pkt, now, peers, seen', out) && |peers| <= 8 && p in peers
    ensures (p, pkt) in out
  {
    BroadcastReachesAll(out, pkt, peers, p);
  }

  /** The announcement of a transaction reaches every peer if there are at most eight, the lock before the request. */
  lemma AnnouncementReachesAll(tx: Transaction, snapshot: Snapshot, out: Sends, peers: set<PubKey>, p: PubKey)
    requires Announces(tx, snapshot, out, peers) && |peers| <= 8 && p in peers
    ensures exists i, j :: 0 <= i < j < |out|
              && out[i] == (p, Packet(tx.hash, NonceLockMsg(tx.from, tx.nonce)))
              && out[j] == (p, Packet(tx.hash, TxVerifyMsg(tx, Some(snapshot))))
  {
    var lock := Packet(tx.hash, NonceLockMsg(tx.from, tx.nonce));
    var request := Packet(tx.hash, TxVerifyMsg(tx, Some(snapshot)));
    var first, second :|
      out == first + second && IsBroadcast(first, lock, peers) && IsBroadcast(second, request, peers);
    BroadcastReachesAll(first, lock, peers, p);
    BroadcastReachesAll(second, request, peers, p);
    var i :| 0 <= i < |first| && first[i] == (p, lock);
    var j :| 0 <= j < |second| && second[j] == (p, request);
    assert out[i] == first[i] && out[|first| + j] == second[j];
  }

  /**
   An accepting witness that sees the request for the first time signs it: the signature goes to the sender if
   it is a peer and else, with at most eight peers, to all of them, and so does the request.
   */
  lemma WitnessAnswers(me: PubKey, seen: Seen, pkt: Packet, now: Time, peers: set<PubKey>, seen': Seen, out: Sends,
                       p: PubKey)
    requires pkt.payload.TxVerifyMsg? && pkt.msgId !in seen && Witnesses(me, true, seen, pkt, now, peers, seen', out)
    requires |peers| <= 8 && p in peers
    ensures (p, pkt) in out
    ensures p == pkt.payload.tx.from || pkt.payload.tx.from !in peers ==> HasSigFor(out, p, pkt.payload.tx.hash, me)
  {
    var sigPkt, first, second :| out == first + second
      && IsSigPacket(sigPkt, pkt.payload.tx.hash, me)
      && IsSigSend(first, sigPkt, pkt.payload.tx.from, peers) && IsBroadcast(second, pkt, peers);
    BroadcastReachesAll(second, pkt, peers, p);
    if pkt.payload.tx.from in peers {
      assert first[0] in out;
    } else {
      BroadcastReachesAll(first, sigPkt, peers, p);
    }
  }

  /** Among the sends is this witness's signature of this transaction, to `p`. */
  ghost predicate HasSigFor(out: Sends, p: PubKey, txHash: Hash, signer: PubKey) {
    exists s :: s in out && s.0 == p && IsSigPacket(s.1, txHash, signer)
  }
}
