/** Transactions, signatures, snapshots and the results of fallible operations. */
module Types {
  import opened Bytes

  datatype Option<+T> = None | Some(value: T)

  datatype Error =
    | AmountZero | AmountOverflow | AmountUnderflow | AmountExceedMax
    | InvalidSignature | InsufficientBalance | InvalidSequence | NonceLocked
    | SnapshotExpired | DagCycle | QuorumNotMet

  datatype Result<+T> = Ok(value: T) | Err(error: Error)

  type Amount = uint64

  /** Seconds on the clock the source reads. */
  type Time = nat

  type Signature = s: seq<byte> | |s| == 64 witness seq(64, _ => 0)

  datatype TxStatus = Pending | Confirmed | Rejected

  datatype WitnessSignature = WitnessSignature(
    signer: PubKey, dagTip: Hash, nonceLockSeen: bool, sig: Signature)

  datatype Transaction = Transaction(
    hash: Hash, sequence: uint64, nonce: uint64, from: PubKey, to: PubKey, amount: Amount,
    senderSig: Signature, parents: seq<Hash>, witnessSigs: seq<WitnessSignature>,
    createdAt: Time, status: TxStatus)

  datatype Snapshot = Snapshot(
    owner: PubKey, sequence: uint64, balance: Amount, dagTips: seq<Hash>, createdAt: Time, expiresAt: Time)
  {
    predicate IsExpired(now: Time) {
      now > expiresAt
    }
  }

  datatype Witness = Witness(key: PubKey, addr: string, addedAt: Time)

  function Zeros(n: nat): (s: seq<byte>)
    ensures |s| == n
  {
    if n == 0 then [] else Zeros(n - 1) + [0]
  }

  /** The value of a hash field before it is set. */
  function ZeroHash(): Hash {
    Zeros(32)
  }

  function NoSignature(): Signature {
    Zeros(64)
  }
}
