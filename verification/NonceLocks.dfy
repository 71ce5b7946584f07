/** Nonce locks over time: what a whole timed sequence of lock operations guarantees. */
module NonceLocks {
  import opened Bytes
  import opened Types
  import opened Store

  type LockId = (PubKey, uint64)

  /**
   A lock request is `Lock` if nothing comes between its two accesses to the store, and otherwise a `Look`
   and a later `Seize` that goes by what operation `looked` had found.
   */
  datatype LockOp =
    | Lock(id: LockId, at: Time)
    | Unlock(id: LockId, at: Time)
    | Look(id: LockId, at: Time)
    | Seize(id: LockId, at: Time, looked: nat)

  /** The locks before operation `n` of a sequence that starts with none. */
  function LocksBefore(ops: seq<LockOp>, n: nat): map<LockId, Time>
    requires n <= |ops|
    decreases n, 0
  {
    if n == 0 then map[] else
      var locks, op := LocksBefore(ops, n - 1), ops[n - 1];
      if LockGranted(ops, n - 1) then locks[op.id := op.at + NONCE_LOCK_TTL]
      else if op.Unlock? then locks - {op.id}
      else locks
  }

  /** Operation `i` sets the lock: the nonce is free, or was when the request looked. */
  predicate LockGranted(ops: seq<LockOp>, i: nat)
    requires i < |ops|
    decreases i, 1
  {
    match ops[i]
    case Lock(id, at) => !Held(LocksBefore(ops, i), id, at)
    case Seize(id, _, l) => l < i && ops[l].Look? && ops[l].id == id && !Held(LocksBefore(ops, l), id, ops[l].at)
    case _ => false
  }

  /** A request that takes the lock right after it looked is a lock request in one. */
  lemma TakeAtOnce(ops: seq<LockOp>, id: LockId, at: Time, n: nat)
    requires n + 2 <= |ops| && ops[n] == Look(id, at) && ops[n + 1] == Seize(id, at, n)
    ensures LocksBefore(ops, n + 2) == TryLock(LocksBefore(ops, n), id, at)
  {
    assert LocksBefore(ops, n + 1) == LocksBefore(ops, n);
  }

  /** The clock never runs backwards. */
  ghost predicate TimeOrdered(ops: seq<LockOp>) {
    forall i, j :: 0 <= i < j < |ops| ==> ops[i].at <= ops[j].at
  }

  ghost predicate NotReleased(ops: seq<LockOp>, id: LockId, i: nat, j: nat) {
    forall m :: i < m < j && m < |ops| ==> ops[m] != Unlock(id, ops[m].at)
  }

  /** A granted lock that is not released keeps an expiry at least its lifetime ahead. */
  lemma {:induction false} ExpiryKept(ops: seq<LockOp>, i: nat, n: nat)
    requires TimeOrdered(ops) && i < n <= |ops| && LockGranted(ops, i)
    requires NotReleased(ops, ops[i].id, i, n)
    ensures ops[i].id in LocksBefore(ops, n) && LocksBefore(ops, n)[ops[i].id] >= ops[i].at + NONCE_LOCK_TTL
    decreases n
  {
    if n > i + 1 {
      ExpiryKept(ops, i, n - 1);
      assert ops[n - 1] != Unlock(ops[i].id, ops[n - 1].at);
    }
  }

  /** Operation `j` looked after operation `i`, if it had to look before. */
  predicate LooksAfter(ops: seq<LockOp>, i: nat, j: nat)
    requires j < |ops|
  {
    ops[j].Seize? ==> i < ops[j].looked
  }

  /**
   Two grants of the same nonce with no release in between are at least 15 seconds apart, unless the second
   request looked before the first was granted.
   */
  lemma GrantsExclude(ops: seq<LockOp>, i: nat, j: nat)
    requires TimeOrdered(ops) && i < j < |ops| && LooksAfter(ops, i, j)
    requires LockGranted(ops, i) && LockGranted(ops, j) && ops[i].id == ops[j].id
    requires NotReleased(ops, ops[i].id, i, j)
    ensures ops[j].at - ops[i].at >= 15
  {
    if ops[j].Seize? {
      ExpiryKept(ops, i, ops[j].looked);
      assert ops[ops[j].looked].at <= ops[j].at;
    } else {
      ExpiryKept(ops, i, j);
    }
  }

  /** Two requests that both look before either takes the lock are both granted, at the same time. */
  lemma OverlappingRequestsBothGranted(id: LockId, at: Time)
    ensures var ops := [Look(id, at), Look(id, at), Seize(id, at, 0), Seize(id, at, 1)];
            TimeOrdered(ops) && LockGranted(ops, 2) && LockGranted(ops, 3) && NotReleased(ops, id, 2, 3)
  {
    var ops := [Look(id, at), Look(id, at), Seize(id, at, 0), Seize(id, at, 1)];
    assert LocksBefore(ops, 0) == map[] && LocksBefore(ops, 1) == map[];
  }

  /** In general a lock granted between another request's look and its turn does not stop that request. */
  lemma LateTakeGranted(ops: seq<LockOp>, i: nat, j: nat)
    requires j < |ops| && ops[j].Seize? && ops[j].looked < i < j && ops[ops[j].looked] == Look(ops[j].id, ops[i].at)
    requires ops[i].Lock? && ops[i].id == ops[j].id && LockGranted(ops, i)
    requires forall m :: ops[j].looked < m < i ==> ops[m].Look?
    ensures LockGranted(ops, j)
  {
    QueriesKeep(ops, ops[j].looked, i);
  }

  lemma {:induction false} QueriesKeep(ops: seq<LockOp>, m: nat, n: nat)
    requires m <= n <= |ops| && forall k :: m <= k < n ==> ops[k].Look?
    ensures LocksBefore(ops, n) == LocksBefore(ops, m)
    decreases n
  {
    if m < n {
      QueriesKeep(ops, m, n - 1);
    }
  }

  /** Whatever expiry is recorded comes from the last grant, not released since. */
  lemma {:induction false} ExpiryOrigin(ops: seq<LockOp>, id: LockId, n: nat) returns (i: nat)
    requires n <= |ops| && id in LocksBefore(ops, n)
    ensures i < n && LockGranted(ops, i) && ops[i].id == id && NotReleased(ops, id, i, n)
    ensures LocksBefore(ops, n)[id] == ops[i].at + NONCE_LOCK_TTL
    decreases n
  {
    var op := ops[n - 1];
    if op.id == id && LockGranted(ops, n - 1) {
      i := n - 1;
    } else {
      i := ExpiryOrigin(ops, id, n - 1);
    }
  }

  /** A nonce is held exactly during the 15 seconds after a grant, unless it was released. */
  lemma {:induction false} HeldWindow(ops: seq<LockOp>, id: LockId, n: nat, now: Time)
    requires TimeOrdered(ops) && n <= |ops|
    ensures Held(LocksBefore(ops, n), id, now)
       <==> exists i: nat :: i < n && LockGranted(ops, i) && ops[i].id == id
                             && NotReleased(ops, id, i, n) && now < ops[i].at + 15
  {
    if Held(LocksBefore(ops, n), id, now) {
      var i := ExpiryOrigin(ops, id, n);
      assert i < n && LockGranted(ops, i) && ops[i].id == id && NotReleased(ops, id, i, n) && now < ops[i].at + 15;
    } else if i: nat :| i < n && LockGranted(ops, i) && ops[i].id == id
                        && NotReleased(ops, id, i, n) && now < ops[i].at + 15 {
      ExpiryKept(ops, i, n);
    }
  }
}
