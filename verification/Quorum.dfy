/** Counting valid witness signatures and what a met quorum means. */
module Quorum {
  import opened Bytes
  import opened Types
  import opened Crypto

  /** The signatures a transaction needs before it is confirmed. */
  const QUORUM_K: nat := 3

  /** A signature that counts: by an active witness that saw the nonce lock, and valid for this hash. */
  predicate Counts(scheme: Scheme, ws: WitnessSignature, txHash: Hash, active: set<PubKey>) {
    ws.signer in active && ws.nonceLockSeen && WitnessSigValid(scheme, ws, txHash)
  }

  /** The active witnesses with some signature that counts. */
  ghost function ValidSigners(scheme: Scheme, sigs: seq<WitnessSignature>, txHash: Hash, active: set<PubKey>)
    : set<PubKey>
  {
    set ws | ws in sigs && Counts(scheme, ws, txHash, active) :: ws.signer
  }

  lemma ValidSignersAppend(
      scheme: Scheme, sigs: seq<WitnessSignature>, ws: WitnessSignature, txHash: Hash, active: set<PubKey>)
    ensures ValidSigners(scheme, sigs + [ws], txHash, active)
         == ValidSigners(scheme, sigs, txHash, active) + if Counts(scheme, ws, txHash, active) then {ws.signer} else {}
  {
    var s := ValidSigners(scheme, sigs, txHash, active);
    var t := ValidSigners(scheme, sigs + [ws], txHash, active);
    forall w | w in s ensures w in t {
      var x :| x in sigs && Counts(scheme, x, txHash, active) && x.signer == w;
      assert x in sigs + [ws];
    }
    if Counts(scheme, ws, txHash, active) {
      assert ws in sigs + [ws];
    }
  }

  /** The count is the number of distinct witnesses, not of signatures. */
  method CountValidSigs(scheme: Scheme, sigs: seq<WitnessSignature>, txHash: Hash, active: set<PubKey>)
    returns (valid: nat)
    ensures valid == |ValidSigners(scheme, sigs, txHash, active)|
  {
    var counted: set<PubKey> := {};
    valid := 0;
    for i := 0 to |sigs|
      invariant counted == ValidSigners(scheme, sigs[..i], txHash, active)
      invariant valid == |counted|
    {
      var ws := sigs[i];
      ValidSignersAppend(scheme, sigs[..i], ws, txHash, active);
      assert sigs[..i + 1] == sigs[..i] + [ws];
      if ws.signer in counted {
        continue;
      }
      if ws.signer !in active {
        continue;
      }
      if !ws.nonceLockSeen {
        continue;
      }
      if !WitnessSigValid(scheme, ws, txHash) {
        continue;
      }
      counted := counted + {ws.signer};
      valid := valid + 1;
    }
    assert sigs[..|sigs|] == sigs;
  }

  ghost predicate QuorumMet(scheme: Scheme, sigs: seq<WitnessSignature>, txHash: Hash, active: set<PubKey>, k: nat) {
    |ValidSigners(scheme, sigs, txHash, active)| >= k
  }

  method VerifyQuorum(scheme: Scheme, sigs: seq<WitnessSignature>, txHash: Hash, active: set<PubKey>, k: nat)
    returns (r: Option<Error>)
    ensures r == if QuorumMet(scheme, sigs, txHash, active, k) then None else Some(QuorumNotMet)
  {
    var valid := CountValidSigs(scheme, sigs, txHash, active);
    if valid < k {
      return Some(QuorumNotMet);
    }
    return None;
  }

  /** Order and repetition do not matter, and more signatures never count for less. */
  lemma {:induction false} ValidSignersMonotone(
      scheme: Scheme, sigs: seq<WitnessSignature>, more: seq<WitnessSignature>, txHash: Hash, active: set<PubKey>)
    requires forall ws :: ws in sigs ==> ws in more
    ensures ValidSigners(scheme, sigs, txHash, active) <= ValidSigners(scheme, more, txHash, active)
    ensures (forall ws :: ws in more ==> ws in sigs) ==>
              ValidSigners(scheme, sigs, txHash, active) == ValidSigners(scheme, more, txHash, active)
  {
    forall w | w in ValidSigners(scheme, sigs, txHash, active)
      ensures w in ValidSigners(scheme, more, txHash, active)
    {
      var x :| x in sigs && Counts(scheme, x, txHash, active) && x.signer == w;
      assert x in more;
    }
    if forall ws :: ws in more ==> ws in sigs {
      forall w | w in ValidSigners(scheme, more, txHash, active)
        ensures w in ValidSigners(scheme, sigs, txHash, active)
      {
        var x :| x in more && Counts(scheme, x, txHash, active) && x.signer == w;
        assert x in sigs;
      }
    }
  }

  ghost predicate AllCount(scheme: Scheme, sigs: seq<WitnessSignature>, txHash: Hash, active: set<PubKey>) {
    forall i :: 0 <= i < |sigs| ==> Counts(scheme, sigs[i], txHash, active)
  }

  ghost predicate DistinctSigners(sigs: seq<WitnessSignature>) {
    forall i, j :: 0 <= i < j < |sigs| ==> sigs[i].signer != sigs[j].signer
  }

  /**
   With no signatures to spare there is no slack: k signatures meet a quorum of k exactly
   when all of them count and no witness signed twice.
   */
  lemma ExactQuorum(scheme: Scheme, sigs: seq<WitnessSignature>, txHash: Hash, active: set<PubKey>)
    ensures QuorumMet(scheme, sigs, txHash, active, |sigs|)
       <==> AllCount(scheme, sigs, txHash, active) && DistinctSigners(sigs)
  {
    SignersBound(scheme, sigs, txHash, active);
  }

  lemma {:induction false} SignersBound(scheme: Scheme, sigs: seq<WitnessSignature>, txHash: Hash, active: set<PubKey>)
    ensures |ValidSigners(scheme, sigs, txHash, active)| <= |sigs|
    ensures |ValidSigners(scheme, sigs, txHash, active)| == |sigs|
       <==> AllCount(scheme, sigs, txHash, active) && DistinctSigners(sigs)
    decreases |sigs|
  {
    if sigs != [] {
      var n := |sigs| - 1;
      var init, last := sigs[..n], sigs[n];
      assert sigs == init + [last];
      SignersBound(scheme, init, txHash, active);
      ValidSignersAppend(scheme, init, last, txHash, active);
      GoodAppend(scheme, init, last, txHash, active);
    }
  }

  /** Appending keeps a list without slack exactly if the new signature counts and its signer is new. */
  lemma GoodAppend(scheme: Scheme, sigs: seq<WitnessSignature>, ws: WitnessSignature, txHash: Hash, active: set<PubKey>)
    ensures AllCount(scheme, sigs + [ws], txHash, active) && DistinctSigners(sigs + [ws])
       <==> && AllCount(scheme, sigs, txHash, active) && DistinctSigners(sigs)
            && Counts(scheme, ws, txHash, active) && ws.signer !in ValidSigners(scheme, sigs, txHash, active)
  {
    var more := sigs + [ws];
    assert forall i :: 0 <= i < |sigs| ==> more[i] == sigs[i];
    assert more[|sigs|] == ws;
    if AllCount(scheme, sigs, txHash, active) && ws.signer !in ValidSigners(scheme, sigs, txHash, active) {
      forall i | 0 <= i < |sigs| ensures sigs[i].signer != ws.signer {
        assert sigs[i] in sigs && Counts(scheme, sigs[i], txHash, active);
      }
    }
    if ws.signer in ValidSigners(scheme, sigs, txHash, active) {
      var x :| x in sigs && Counts(scheme, x, txHash, active) && x.signer == ws.signer;
      var i :| 0 <= i < |sigs| && sigs[i] == x;
      assert more[i].signer == more[|sigs|].signer;
    }
  }

  /** With fewer than 2k active witnesses any two accepted signature lists have a witness in common. */
  lemma QuorumsIntersect(
      scheme: Scheme, k: nat, active: set<PubKey>,
      sigs: seq<WitnessSignature>, h: Hash, sigs': seq<WitnessSignature>, h': Hash) returns (w: PubKey)
    requires |active| < 2 * k
    requires QuorumMet(scheme, sigs, h, active, k) && QuorumMet(scheme, sigs', h', active, k)
    ensures w in ValidSigners(scheme, sigs, h, active) && w in ValidSigners(scheme, sigs', h', active)
  {
    var A, B := ValidSigners(scheme, sigs, h, active), ValidSigners(scheme, sigs', h', active);
    assert A + B <= active;
    assert active == (A + B) + (active - (A + B));
    assert |A + B| == |A| + |B| - |A * B|;
    assert A * B != {};
    w :| w in A * B;
  }

  // ---- What the signatures mean -------------------------------------------------------------------------

  /** The bytes a signature that counts must cover: the hash, the tip it names, and 1 for the lock that was seen. */
  function SignedBytes(txHash: Hash, dagTip: Hash): seq<byte> {
    txHash + dagTip + [1]
  }

  /** A signature counts exactly if an active witness says it saw the lock and its key verifies just that. */
  lemma CountsMeans(scheme: Scheme, ws: WitnessSignature, txHash: Hash, active: set<PubKey>)
    ensures Counts(scheme, ws, txHash, active)
       <==> ws.signer in active && ws.nonceLockSeen && scheme.verify(ws.signer, SignedBytes(txHash, ws.dagTip), ws.sig)
  {
    if ws.nonceLockSeen {
      assert WitnessMsg(txHash, ws.dagTip, true) == SignedBytes(txHash, ws.dagTip);
    }
  }

  /** An honest witness's signature counts exactly if it is active and saw the lock. */
  lemma HonestCounts(scheme: Scheme, kp: KeyPair, txHash: Hash, tip: Hash, seen: bool, active: set<PubKey>)
    requires Signs(scheme, kp)
    ensures var ws := SignAsWitness(scheme, kp, txHash, tip, seen);
            && WitnessSigValid(scheme, ws, txHash)
            && ws.signer == kp.pub && ws.dagTip == tip && ws.nonceLockSeen == seen
            && (Counts(scheme, ws, txHash, active) <==> kp.pub in active && seen)
  {
  }

  /** Different active witnesses that all saw the lock and sign honestly meet a quorum of their number. */
  lemma HonestQuorum(scheme: Scheme, kps: seq<KeyPair>, tips: seq<Hash>, sigs: seq<WitnessSignature>, txHash: Hash,
                     active: set<PubKey>)
    requires |kps| == |tips| == |sigs|
    requires forall i :: 0 <= i < |kps| ==> Signs(scheme, kps[i]) && kps[i].pub in active
    requires forall i :: 0 <= i < |kps| ==> sigs[i] == SignAsWitness(scheme, kps[i], txHash, tips[i], true)
    requires forall i, j :: 0 <= i < j < |kps| ==> kps[i].pub != kps[j].pub
    ensures QuorumMet(scheme, sigs, txHash, active, |kps|)
  {
    forall i | 0 <= i < |sigs| ensures Counts(scheme, sigs[i], txHash, active) && sigs[i].signer == kps[i].pub {
      HonestCounts(scheme, kps[i], txHash, tips[i], true, active);
    }
    ExactQuorum(scheme, sigs, txHash, active);
  }

  /** This witness signed this transaction, having seen the lock. */
  ghost predicate HasSigned(scheme: Scheme, sigs: seq<WitnessSignature>, txHash: Hash, w: PubKey) {
    exists ws :: ws in sigs && ws.signer == w && ws.nonceLockSeen
                 && scheme.verify(w, SignedBytes(txHash, ws.dagTip), ws.sig)
  }

  ghost predicate AllSigned(scheme: Scheme, sigs: seq<WitnessSignature>, txHash: Hash, signers: set<PubKey>) {
    forall w :: w in signers ==> HasSigned(scheme, sigs, txHash, w)
  }

  /** A quorum of k is met exactly if k different active witnesses have signed. */
  lemma QuorumMeans(scheme: Scheme, sigs: seq<WitnessSignature>, txHash: Hash, active: set<PubKey>, k: nat)
    ensures QuorumMet(scheme, sigs, txHash, active, k)
       <==> exists signers: set<PubKey> ::
              |signers| >= k && signers <= active && AllSigned(scheme, sigs, txHash, signers)
  {
    var all := ValidSigners(scheme, sigs, txHash, active);
    forall w ensures w in all <==> w in active && HasSigned(scheme, sigs, txHash, w) {
      SignerMeans(scheme, sigs, txHash, active, w);
    }
    if signers: set<PubKey> :| |signers| >= k && signers <= active && AllSigned(scheme, sigs, txHash, signers) {
      assert signers <= all;
      assert all == signers + (all - signers);
    }
  }

  lemma SignerMeans(scheme: Scheme, sigs: seq<WitnessSignature>, txHash: Hash, active: set<PubKey>, w: PubKey)
    ensures w in ValidSigners(scheme, sigs, txHash, active) <==> w in active && HasSigned(scheme, sigs, txHash, w)
  {
    if w in ValidSigners(scheme, sigs, txHash, active) {
      var ws :| ws in sigs && Counts(scheme, ws, txHash, active) && ws.signer == w;
      CountsMeans(scheme, ws, txHash, active);
      assert HasSigned(scheme, sigs, txHash, w);
    }
    if w in active && HasSigned(scheme, sigs, txHash, w) {
      var ws :| ws in sigs && ws.signer == w && ws.nonceLockSeen
                && scheme.verify(w, SignedBytes(txHash, ws.dagTip), ws.sig);
      CountsMeans(scheme, ws, txHash, active);
    }
  }
}
