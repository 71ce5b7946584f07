/** What is hashed and signed, and when a signature check passes. Hash and signature scheme are parameters. */
module Crypto {
  import opened Bytes
  import opened Types

  type Key = seq<byte>

  /** The primitives the source imports: a hash and a signature scheme. */
  datatype Scheme = Scheme(
    hash: seq<byte> -> Hash,
    sign: (Key, seq<byte>) -> Signature,
    verify: (PubKey, seq<byte>, Signature) -> bool)

  datatype KeyPair = KeyPair(pub: PubKey, priv: Key)

  /** What a signature scheme promises: what the pair signs verifies under its public key. */
  ghost predicate Signs(scheme: Scheme, kp: KeyPair) {
    forall m :: scheme.verify(kp.pub, m, scheme.sign(kp.priv, m))
  }

  function Join(parents: seq<Hash>): (s: seq<byte>)
    ensures |s| == 32 * |parents|
  {
    if parents == [] then [] else parents[0] + Join(parents[1..])
  }

  /** The bytes a transaction's hash covers. */
  function TxPreimage(seqNo: uint64, nonce: uint64, from: PubKey, to: PubKey, amount: Amount, parents: seq<Hash>)
    : (s: seq<byte>)
    ensures |s| == 88 + 32 * |parents|
  {
    U64(seqNo) + U64(nonce) + from + to + U64(amount) + Join(parents)
  }

  function HashOf(scheme: Scheme, tx: Transaction): Hash {
    scheme.hash(TxPreimage(tx.sequence, tx.nonce, tx.from, tx.to, tx.amount, tx.parents))
  }

  /** A hasher that collects what is written to it. */
  class Hasher {
    const scheme: Scheme
    var written: seq<byte>

    constructor (scheme: Scheme)
      ensures this.scheme == scheme && written == []
    {
      this.scheme := scheme;
      written := [];
    }

    method Write(data: seq<byte>)
      modifies this
      ensures written == old(written) + data
    {
      written := written + data;
    }

    /** A word, by way of the caller's 8-byte buffer. */
    method WriteWord(buf: array<byte>, n: uint64)
      requires buf.Length == 8
      modifies this, buf
      ensures written == old(written) + U64(n)
    {
      PutUint64(buf, 0, n);
      assert buf[..] == U64(n);
      Write(buf[..]);
    }

    method Sum() returns (h: Hash)
      ensures h == scheme.hash(written)
    {
      h := scheme.hash(written);
    }
  }

  /** One reused buffer feeds the hasher the three words; the keys and parents are written directly. */
  method HashTx(
      scheme: Scheme, seqNo: uint64, nonce: uint64, from: PubKey, to: PubKey, amount: Amount, parents: seq<Hash>)
    returns (out: Hash)
    ensures out == scheme.hash(TxPreimage(seqNo, nonce, from, to, amount, parents))
  {
    var h := new Hasher(scheme);
    var buf := new byte[8];
    h.WriteWord(buf, seqNo);
    h.WriteWord(buf, nonce);
    h.Write(from);
    h.Write(to);
    h.WriteWord(buf, amount);
    ghost var head := h.written;
    assert head == U64(seqNo) + U64(nonce) + from + to + U64(amount);
    for i := 0 to |parents|
      invariant h.scheme == scheme
      invariant h.written + Join(parents[i..]) == head + Join(parents)
    {
      assert parents[i..][1..] == parents[i + 1..];
      assert h.written + Join(parents[i..]) == (h.written + parents[i]) + Join(parents[i + 1..]);
      h.Write(parents[i]);
    }
    assert h.written == h.written + Join(parents[|parents|..]);
    assert head + Join(parents) == TxPreimage(seqNo, nonce, from, to, amount, parents);
    out := h.Sum();
  }

  lemma {:induction false} JoinInjective(ps: seq<Hash>, qs: seq<Hash>)
    requires Join(ps) == Join(qs)
    ensures ps == qs
    decreases |ps|
  {
    assert |ps| == |qs|;
    if ps != [] {
      assert Join(ps)[..32] == ps[0] && Join(qs)[..32] == qs[0];
      assert Join(ps)[32..] == Join(ps[1..]) && Join(qs)[32..] == Join(qs[1..]);
      JoinInjective(ps[1..], qs[1..]);
      assert ps == [ps[0]] + ps[1..] && qs == [qs[0]] + qs[1..];
    }
  }

  /** The hashed bytes determine every covered field, for parent lists of any length. */
  lemma PreimageInjective(
      seqNo: uint64, nonce: uint64, from: PubKey, to: PubKey, amount: Amount, parents: seq<Hash>,
      seqNo': uint64, nonce': uint64, from': PubKey, to': PubKey, amount': Amount, parents': seq<Hash>)
    requires TxPreimage(seqNo, nonce, from, to, amount, parents)
          == TxPreimage(seqNo', nonce', from', to', amount', parents')
    ensures seqNo == seqNo' && nonce == nonce' && from == from' && to == to' && amount == amount' && parents == parents'
  {
    PreimageParts(seqNo, nonce, from, to, amount, parents);
    PreimageParts(seqNo', nonce', from', to', amount', parents');
    U64Injective(seqNo, seqNo');
    U64Injective(nonce, nonce');
    U64Injective(amount, amount');
    JoinInjective(parents, parents');
  }

  lemma PreimageParts(seqNo: uint64, nonce: uint64, from: PubKey, to: PubKey, amount: Amount, parents: seq<Hash>)
    ensures var s := TxPreimage(seqNo, nonce, from, to, amount, parents);
            && s[..8] == U64(seqNo) && s[8..16] == U64(nonce) && s[16..48] == from && s[48..80] == to
            && s[80..88] == U64(amount) && s[88..] == Join(parents)
  {
  }

  /** The bytes `HashOf` covers. */
  function Covered(tx: Transaction): seq<byte> {
    TxPreimage(tx.sequence, tx.nonce, tx.from, tx.to, tx.amount, tx.parents)
  }

  predicate SameFields(t: Transaction, u: Transaction) {
    && t.sequence == u.sequence && t.nonce == u.nonce && t.from == u.from && t.to == u.to
    && t.amount == u.amount && t.parents == u.parents
  }

  /** Transactions with equal hashes agree on every covered field, or else they exhibit a collision of the hash. */
  lemma HashDeterminesFields(scheme: Scheme, t: Transaction, u: Transaction)
    ensures HashOf(scheme, t) == HashOf(scheme, u)
       <==> SameFields(t, u) || (Covered(t) != Covered(u) && scheme.hash(Covered(t)) == scheme.hash(Covered(u)))
  {
    if Covered(t) == Covered(u) {
      PreimageInjective(t.sequence, t.nonce, t.from, t.to, t.amount, t.parents,
                        u.sequence, u.nonce, u.from, u.to, u.amount, u.parents);
    }
  }

  /** The bytes a witness signs. */
  function WitnessMsg(txHash: Hash, dagTip: Hash, nonceLockSeen: bool): (s: seq<byte>)
    ensures |s| == 65
  {
    txHash + dagTip + [if nonceLockSeen then 1 else 0]
  }

  /** The source fills a zeroed 65-byte buffer. */
  method FillWitnessMsg(txHash: Hash, dagTip: Hash, nonceLockSeen: bool) returns (msg: array<byte>)
    ensures fresh(msg) && msg[..] == WitnessMsg(txHash, dagTip, nonceLockSeen)
  {
    msg := new byte[65](_ => 0);
    forall i | 0 <= i < 32 { msg[i] := txHash[i]; }
    forall i | 0 <= i < 32 { msg[32 + i] := dagTip[i]; }
    if nonceLockSeen {
      msg[64] := 1;
    }
  }

  /** A witness message determines the transaction, the tip and the flag. */
  lemma WitnessMsgInjective(h: Hash, tip: Hash, seen: bool, h': Hash, tip': Hash, seen': bool)
    requires WitnessMsg(h, tip, seen) == WitnessMsg(h', tip', seen')
    ensures h == h' && tip == tip' && seen == seen'
  {
    var s, s' := WitnessMsg(h, tip, seen), WitnessMsg(h', tip', seen');
    assert s[..32] == h && s'[..32] == h';
    assert s[32..64] == tip && s'[32..64] == tip';
    assert s[64] == (if seen then 1 else 0) && s'[64] == (if seen' then 1 else 0);
  }

  /** Sets the hash and the sender's signature. */
  function SignedTx(scheme: Scheme, kp: KeyPair, tx: Transaction): Transaction {
    var h := HashOf(scheme, tx);
    tx.(hash := h, senderSig := scheme.sign(kp.priv, h))
  }

  method SignTx(scheme: Scheme, kp: KeyPair, tx: Transaction) returns (signed: Transaction)
    ensures signed == SignedTx(scheme, kp, tx)
  {
    var h := HashTx(scheme, tx.sequence, tx.nonce, tx.from, tx.to, tx.amount, tx.parents);
    signed := tx.(hash := h, senderSig := scheme.sign(kp.priv, h));
  }

  predicate TxSignatureValid(scheme: Scheme, tx: Transaction) {
    tx.hash == HashOf(scheme, tx) && scheme.verify(tx.from, tx.hash, tx.senderSig)
  }

  method VerifyTx(scheme: Scheme, tx: Transaction) returns (r: Option<Error>)
    ensures r == if TxSignatureValid(scheme, tx) then None else Some(InvalidSignature)
  {
    var expected := HashTx(scheme, tx.sequence, tx.nonce, tx.from, tx.to, tx.amount, tx.parents);
    if expected != tx.hash {
      return Some(InvalidSignature);
    }
    if !scheme.verify(tx.from, tx.hash, tx.senderSig) {
      return Some(InvalidSignature);
    }
    return None;
  }

  function SignAsWitness(scheme: Scheme, kp: KeyPair, txHash: Hash, dagTip: Hash, nonceLockSeen: bool)
    : WitnessSignature
  {
    WitnessSignature(kp.pub, dagTip, nonceLockSeen, scheme.sign(kp.priv, WitnessMsg(txHash, dagTip, nonceLockSeen)))
  }

  predicate WitnessSigValid(scheme: Scheme, ws: WitnessSignature, txHash: Hash) {
    scheme.verify(ws.signer, WitnessMsg(txHash, ws.dagTip, ws.nonceLockSeen), ws.sig)
  }
}
