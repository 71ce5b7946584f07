/** The byte keys under which everything is kept in the one flat store. */
module Keys {
  import opened Bytes

  datatype StoreKey =
    | BalanceKey(owner: PubKey)
    | SequenceKey(owner: PubKey)
    | TxKey(owner: PubKey, sequence: uint64)
    | AppliedKey(hash: Hash)
    | RewardPoolKey
    | SnapshotKey(owner: PubKey)
    | WitnessesKey
    | NonceLockKey(owner: PubKey, nonce: uint64)

  /** The text "reward_pool". */
  const REWARD_POOL: seq<byte> := [114, 101, 119, 97, 114, 100, 95, 112, 111, 111, 108]

  /** The text "active_witnesses". */
  const ACTIVE_WITNESSES: seq<byte> := [97, 99, 116, 105, 118, 101, 95, 119, 105, 116, 110, 101, 115, 115, 101, 115]

  /** Each kind of key starts with its own letter. */
  function Encode(k: StoreKey): (s: seq<byte>)
    ensures s != []
  {
    match k
    case BalanceKey(pk) => [66] + pk
    case SequenceKey(pk) => [83] + pk
    case TxKey(pk, n) => [84] + pk + U64(n)
    case AppliedKey(h) => [65] + h
    case RewardPoolKey => REWARD_POOL
    case SnapshotKey(pk) => [80] + pk
    case WitnessesKey => ACTIVE_WITNESSES
    case NonceLockKey(pk, n) => [78] + pk + U64(n)
  }

  function Kind(k: StoreKey): byte {
    match k
    case BalanceKey(_) => 66
    case SequenceKey(_) => 83
    case TxKey(_, _) => 84
    case AppliedKey(_) => 65
    case RewardPoolKey => 114
    case SnapshotKey(_) => 80
    case WitnessesKey => 97
    case NonceLockKey(_, _) => 78
  }

  lemma KindFirst(k: StoreKey)
    ensures Encode(k)[0] == Kind(k)
  {
  }

  /** No two keys, of the same kind or of different kinds, share their bytes. */
  lemma EncodeInjective(k: StoreKey, l: StoreKey)
    requires Encode(k) == Encode(l)
    ensures k == l
  {
    KindFirst(k);
    KindFirst(l);
    match k
    case BalanceKey(pk) =>
      assert Encode(k)[1..] == pk && Encode(l)[1..] == l.owner;
    case SequenceKey(pk) =>
      assert Encode(k)[1..] == pk && Encode(l)[1..] == l.owner;
    case TxKey(pk, n) =>
      assert Encode(k)[1..33] == pk && Encode(l)[1..33] == l.owner;
      assert Encode(k)[33..] == U64(n) && Encode(l)[33..] == U64(l.sequence);
      U64Injective(n, l.sequence);
    case AppliedKey(h) =>
      assert Encode(k)[1..] == h && Encode(l)[1..] == l.hash;
    case RewardPoolKey =>
    case SnapshotKey(pk) =>
      assert Encode(k)[1..] == pk && Encode(l)[1..] == l.owner;
    case WitnessesKey =>
    case NonceLockKey(pk, n) =>
      assert Encode(k)[1..33] == pk && Encode(l)[1..33] == l.owner;
      assert Encode(k)[33..] == U64(n) && Encode(l)[33..] == U64(l.nonce);
      U64Injective(n, l.nonce);
  }

  /** The letters and texts of the source's keys. */
  lemma KeyLetters(pk: PubKey, h: Hash, n: uint64)
    ensures Encode(BalanceKey(pk)) == ['B' as int] + pk && Encode(SequenceKey(pk)) == ['S' as int] + pk
    ensures Encode(TxKey(pk, n)) == ['T' as int] + pk + U64(n) && Encode(AppliedKey(h)) == ['A' as int] + h
    ensures Encode(SnapshotKey(pk)) == ['P' as int] + pk && Encode(NonceLockKey(pk, n)) == ['N' as int] + pk + U64(n)
    ensures Spells(Encode(RewardPoolKey), "reward_pool") && Spells(Encode(WitnessesKey), "active_witnesses")
  {
  }

  predicate Spells(s: seq<byte>, text: string) {
    |s| == |text| && forall i :: 0 <= i < |s| ==> s[i] == text[i] as int
  }

  /** The transaction key as it is filled in: a letter, the sender, then the sequence by `PutUint64`. */
  method FillTxKey(pk: PubKey, sequence: uint64) returns (key: array<byte>)
    ensures fresh(key) && key[..] == Encode(TxKey(pk, sequence))
  {
    key := new byte[41](_ => 0);
    key[0] := 84;
    forall i | 0 <= i < 32 { key[1 + i] := pk[i]; }
    PutUint64(key, 33, sequence);
  }

  /** The nonce-lock key as it is filled in: the nonce is shifted out byte by byte. */
  method FillNonceLockKey(pk: PubKey, nonce: uint64) returns (key: array<byte>)
    ensures fresh(key) && key[..] == Encode(NonceLockKey(pk, nonce))
  {
    key := new byte[41](_ => 0);
    key[0] := 78;
    forall i | 0 <= i < 32 { key[1 + i] := pk[i]; }
    for i := 0 to 8
      invariant key[..33] == [78] + pk
      invariant forall j | 0 <= j < i :: key[33 + j] == U64(nonce)[j]
    {
      BigEndianByte(nonce, 8, i);
      key[33 + i] := (nonce / Pow256(7 - i)) % 256;
    }
    assert key[..] == key[..33] + key[33..];
  }
}
