/** The log a node keeps of its own transactions, over builds, confirmations and gossip credits in every order. */
module SenderLog {
  import opened Bytes
  import opened Types
  import opened Amounts
  import opened Crypto
  import opened Ledgers
  import opened Sums
  import opened Transfers

  /** A node's state and every transaction it has built; several may await confirmation at once. */
  datatype LocalState = LocalState(node: NodeState, built: set<Transaction>)

  datatype LocalStep =
    | BuildStep(tips: seq<Hash>, to: PubKey, amount: Amount, nonce: uint64, now: Time)
    | ConfirmStep(tx: Transaction, sigs: seq<WitnessSignature>)
    | ApplyStep(gossiped: Transaction)

  function Take(scheme: Scheme, kp: KeyPair, s: LocalState, step: LocalStep): LocalState {
    match step
    case BuildStep(tips, to, amount, nonce, now) =>
      (match Build(s.node.ledger, tips, scheme, kp, to, amount, nonce, now)
       case Ok(tx) => s.(built := s.built + {tx})
       case Err(_) => s)
    case ConfirmStep(tx, sigs) =>
      if tx in s.built then s.(node := Confirm(s.node, tx.(witnessSigs := sigs)).0) else s
    case ApplyStep(tx) =>
      s.(node := s.node.(ledger := Apply(s.node.ledger, tx).0))
  }

  function TakeAll(scheme: Scheme, kp: KeyPair, s: LocalState, steps: seq<LocalStep>): LocalState
    decreases |steps|
  {
    if steps == [] then s else TakeAll(scheme, kp, Take(scheme, kp, s, steps[0]), steps[1..])
  }

  /** The stored transactions of `me` are exactly the entries 1..M, each confirmed and under its own sequence. */
  ghost predicate Gapless(L: Ledger, me: PubKey, M: nat) {
    && (forall n: uint64 :: (me, n) in L.txs <==> 1 <= n <= M)
    && (forall n: uint64 :: (me, n) in L.txs ==>
          L.txs[(me, n)].from == me && L.txs[(me, n)].sequence == n && L.txs[(me, n)].status == Confirmed)
    && LatestSeq(L, me) <= M
    && (M > 0 ==> LatestSeq(L, me) > 0)
  }

  /** Whatever was built continues some prefix of the log. */
  ghost predicate PendingInRange(s: LocalState, me: PubKey, M: nat) {
    forall tx :: tx in s.built ==> tx.from == me && 1 <= tx.sequence <= M + 1
  }

  /** Confirming any built transaction fills the next entry or rewrites an old one. */
  lemma ConfirmGapless(s: NodeState, me: PubKey, tx: Transaction, M: nat)
    requires Gapless(s.ledger, me, M) && tx.from == me && 1 <= tx.sequence <= M + 1
    ensures Gapless(Confirm(s, tx).0.ledger, me, if Confirm(s, tx).1 == None && tx.sequence == M + 1 then M + 1 else M)
  {
    if Confirm(s, tx).1 == None {
      ConfirmRecords(s, tx);
      RecordGapless(s.ledger, Confirm(s, tx).0.ledger, me, tx.(status := Confirmed), M);
    } else {
      FailureKeepsLedger(s, tx);
    }
  }

  lemma RecordGapless(L: Ledger, L': Ledger, me: PubKey, entry: Transaction, M: nat)
    requires Gapless(L, me, M) && entry.from == me && 1 <= entry.sequence <= M + 1 && entry.status == Confirmed
    requires L'.txs == L.txs[(me, entry.sequence) := entry] && LatestSeq(L', me) == entry.sequence
    ensures Gapless(L', me, if entry.sequence == M + 1 then M + 1 else M)
  {
  }

  /** A build adds at most the next transaction. */
  lemma BuildTaken(scheme: Scheme, kp: KeyPair, s: LocalState, step: LocalStep) returns (r: Result<Transaction>)
    requires step.BuildStep?
    ensures r.Ok? ==> r.value.from == kp.pub && r.value.to == step.to && r.value.amount > 0
                      && r.value.sequence == (LatestSeq(s.node.ledger, kp.pub) + 1) % TWO_64
    ensures Take(scheme, kp, s, step) == if r.Ok? then s.(built := s.built + {r.value}) else s
  {
    BuiltFields(s.node.ledger, step.tips, scheme, kp, step.to, step.amount, step.nonce, step.now);
    r := Build(s.node.ledger, step.tips, scheme, kp, step.to, step.amount, step.nonce, step.now);
  }

  /** Whatever is added with a sequence after one within the log is in range. */
  lemma AddedInRange(built: set<Transaction>, tx: Transaction, L: Ledger, me: PubKey, M: nat)
    requires tx.from == me && tx.sequence == (LatestSeq(L, me) + 1) % TWO_64 && LatestSeq(L, me) <= M && M + 1 < TWO_64
    requires forall t :: t in built ==> t.from == me && 1 <= t.sequence <= M + 1
    ensures forall t :: t in built + {tx} ==> t.from == me && 1 <= t.sequence <= M + 1
  {
  }

  lemma StepGapless(scheme: Scheme, kp: KeyPair, s: LocalState, step: LocalStep, M: nat) returns (M': nat)
    requires Gapless(s.node.ledger, kp.pub, M) && PendingInRange(s, kp.pub, M) && M + 1 < TWO_64
    ensures M <= M' <= M + 1
    ensures var s' := Take(scheme, kp, s, step);
            Gapless(s'.node.ledger, kp.pub, M') && PendingInRange(s', kp.pub, M')
  {
    M' := M;
    match step {
      case BuildStep(_, _, _, _, _) =>
        var r := BuildTaken(scheme, kp, s, step);
        if r.Ok? {
          AddedInRange(s.built, r.value, s.node.ledger, kp.pub, M);
        }
      case ApplyStep(tx) =>
      case ConfirmStep(tx, sigs) =>
        if tx in s.built {
          var signed := tx.(witnessSigs := sigs);
          ConfirmGapless(s.node, kp.pub, signed, M);
          M' := if Confirm(s.node, signed).1 == None && tx.sequence == M + 1 then M + 1 else M;
        }
    }
  }

  /**
   In every order, with equal sequences pending at once and the latest sequence moving
   backwards, the log stays gapless. The run is shorter than the range of sequence numbers.
   */
  lemma {:induction false} RunGapless(scheme: Scheme, kp: KeyPair, s: LocalState, steps: seq<LocalStep>, M: nat)
    returns (M': nat)
    requires Gapless(s.node.ledger, kp.pub, M) && PendingInRange(s, kp.pub, M) && M + |steps| < TWO_64
    ensures M <= M' <= M + |steps|
    ensures var s' := TakeAll(scheme, kp, s, steps);
            Gapless(s'.node.ledger, kp.pub, M') && PendingInRange(s', kp.pub, M')
    decreases |steps|
  {
    M' := M;
    if steps != [] {
      var mid := StepGapless(scheme, kp, s, steps[0], M);
      M' := RunGapless(scheme, kp, Take(scheme, kp, s, steps[0]), steps[1..], mid);
    }
  }

  // ---- Replaying the log ----------------------------------------------------------------------

  /** Balances and pool as plain numbers. */
  datatype Books = Books(bal: map<PubKey, int>, pool: int)

  function Owned(b: Books, pk: PubKey): int {
    if pk in b.bal then b.bal[pk] else 0
  }

  /** One logged transfer, applied without any check. */
  function Move(b: Books, tx: Transaction): Books {
    Books(b.bal[tx.from := Owned(b, tx.from) - Cost(tx)][tx.to := Owned(b, tx.to) + tx.amount],
          b.pool + BondAmount(tx.amount))
  }

  function Replay(b: Books, log: seq<Transaction>): Books {
    if log == [] then b else Move(Replay(b, log[..|log| - 1]), log[|log| - 1])
  }

  function BooksOf(L: Ledger): Books {
    Books(L.bal, Pool(L))
  }

  /** Entries 1..n of `me` are logged, each a transfer of a positive amount to somebody else. */
  ghost predicate Logged(L: Ledger, me: PubKey, n: nat) {
    forall i: uint64 :: 1 <= i <= n ==>
      (me, i) in L.txs && L.txs[(me, i)].from == me && L.txs[(me, i)].to != me && L.txs[(me, i)].amount > 0
  }

  ghost function Log(L: Ledger, me: PubKey, n: nat): (log: seq<Transaction>)
    requires n < TWO_64 && Logged(L, me, n)
    ensures |log| == n
    ensures forall i: nat :: i < n ==> log[i] == L.txs[(me, i + 1)]
  {
    if n == 0 then [] else Log(L, me, n - 1) + [L.txs[(me, n)]]
  }

  /** Replaying the log up to the latest sequence over the initial books gives the current balances and pool. */
  ghost predicate LogAgrees(b: Books, L: Ledger, me: PubKey) {
    var n := LatestSeq(L, me);
    Logged(L, me, n) && Replay(b, Log(L, me, n)) == BooksOf(L)
  }

  lemma {:induction false} ReplayDrains(b: Books, log: seq<Transaction>, me: PubKey, i: nat)
    requires i <= |log|
    requires forall k :: 0 <= k < |log| ==> log[k].from == me && log[k].to != me && log[k].amount > 0
    ensures Owned(Replay(b, log), me) <= Owned(Replay(b, log[..i]), me) - (|log| - i)
    decreases |log|
  {
    if i < |log| {
      var init := log[..|log| - 1];
      ReplayDrains(b, init, me, i);
      assert init[..i] == log[..i];
    } else {
      assert log[..i] == log;
    }
  }

  /** Replay depends only on the listed entries. */
  lemma LogExtend(L: Ledger, L': Ledger, me: PubKey, q: uint64, tx: Transaction)
    requires q > 0 && Logged(L, me, q - 1) && L'.txs == L.txs[(me, q) := tx]
    requires tx.from == me && tx.to != me && tx.amount > 0
    ensures Logged(L', me, q) && Log(L', me, q) == Log(L, me, q - 1) + [tx]
  {
    assert Logged(L', me, q);
    var log, log' := Log(L, me, q - 1), Log(L', me, q);
    forall i: nat | i < q ensures log'[i] == (log + [tx])[i] {
      if i < q - 1 {
        assert log'[i] == L'.txs[(me, i + 1)] == L.txs[(me, i + 1)];
      }
    }
  }

  lemma ConfirmMoves(s: NodeState, tx: Transaction)
    requires tx.from != tx.to && Supply(s.ledger) <= MAX_AMOUNT && Confirm(s, tx).1 == None
    ensures BooksOf(Confirm(s, tx).0.ledger) == Move(BooksOf(s.ledger), tx.(status := Confirmed))
  {
    BondAlwaysFits(s, tx);
  }

  /**
   Confirming one more built transaction keeps log and balances in agreement exactly when its
   sequence continues the log. An older sequence overwrites an entry that was already paid for.
   */
  lemma ConfirmKeepsAgreementIff(b: Books, s: NodeState, me: PubKey, tx: Transaction)
    requires LogAgrees(b, s.ledger, me) && Supply(s.ledger) <= MAX_AMOUNT
    requires tx.from == me && tx.to != me && tx.amount > 0
    requires 1 <= tx.sequence <= LatestSeq(s.ledger, me) + 1
    requires Confirm(s, tx).1 == None
    ensures LogAgrees(b, Confirm(s, tx).0.ledger, me) <==> tx.sequence == LatestSeq(s.ledger, me) + 1
  {
    ConfirmMoves(s, tx);
    ConfirmRecords(s, tx);
    AgreementAfter(b, s.ledger, Confirm(s, tx).0.ledger, me, tx.(status := Confirmed));
  }

  lemma AgreementAfter(b: Books, L: Ledger, L': Ledger, me: PubKey, entry: Transaction)
    requires LogAgrees(b, L, me) && 1 <= entry.sequence <= LatestSeq(L, me) + 1
    requires entry.from == me && entry.to != me && entry.amount > 0
    requires BooksOf(L') == Move(BooksOf(L), entry) && LatestSeq(L', me) == entry.sequence
    requires L'.txs == L.txs[(me, entry.sequence) := entry]
    ensures LogAgrees(b, L', me) <==> entry.sequence == LatestSeq(L, me) + 1
  {
    var log, q := Log(L, me, LatestSeq(L, me)), entry.sequence;
    LogAfter(L, L', me, entry);
    LogEntries(L, me, LatestSeq(L, me));
    OverwriteDisagrees(b, log, q, entry, me);
  }

  lemma LogEntries(L: Ledger, me: PubKey, n: nat)
    requires n < TWO_64 && Logged(L, me, n)
    ensures forall k :: 0 <= k < n ==>
      Log(L, me, n)[k].from == me && Log(L, me, n)[k].to != me && Log(L, me, n)[k].amount > 0
  {
  }

  /** Writing `entry` in place of entry `q` of a log gives the books `entry` leads to only if nothing is overwritten. */
  lemma OverwriteDisagrees(b: Books, log: seq<Transaction>, q: nat, entry: Transaction, me: PubKey)
    requires forall k :: 0 <= k < |log| ==> log[k].from == me && log[k].to != me && log[k].amount > 0
    requires 1 <= q <= |log| + 1 && entry.from == me && entry.to != me
    ensures Replay(b, log[..q - 1] + [entry]) == Move(Replay(b, log), entry) <==> q == |log| + 1
  {
    var kept := log[..q - 1];
    assert (kept + [entry])[..q - 1] == kept;
    if q <= |log| {
      ReplayDrains(b, log, me, q - 1);
      MoveDebits(Replay(b, kept), entry);
      MoveDebits(Replay(b, log), entry);
    } else {
      assert kept == log;
    }
  }

  lemma MoveDebits(b: Books, tx: Transaction)
    requires tx.from != tx.to
    ensures Owned(Move(b, tx), tx.from) == Owned(b, tx.from) - Cost(tx)
  {
  }

  /** The log after writing entry `q`. */
  lemma LogAfter(L: Ledger, L': Ledger, me: PubKey, entry: Transaction)
    requires Logged(L, me, LatestSeq(L, me)) && 1 <= entry.sequence <= LatestSeq(L, me) + 1
    requires entry.from == me && entry.to != me && entry.amount > 0
    requires L'.txs == L.txs[(me, entry.sequence) := entry]
    ensures var q := entry.sequence;
            Logged(L', me, q) && Log(L', me, q) == Log(L, me, LatestSeq(L, me))[..q - 1] + [entry]
  {
    var q := entry.sequence;
    LogExtend(L, L', me, q, entry);
    assert Log(L, me, q - 1) == Log(L, me, LatestSeq(L, me))[..q - 1];
  }

  /** A serial run: each transaction is confirmed before the next is built. */
  datatype Payment = Payment(
    tips: seq<Hash>, to: PubKey, amount: Amount, nonce: uint64, now: Time, sigs: seq<WitnessSignature>)

  function Pay(scheme: Scheme, kp: KeyPair, s: NodeState, p: Payment): NodeState {
    ConfirmBuilt(s, Build(s.ledger, p.tips, scheme, kp, p.to, p.amount, p.nonce, p.now), p.sigs)
  }

  function ConfirmBuilt(s: NodeState, built: Result<Transaction>, sigs: seq<WitnessSignature>): NodeState {
    match built
    case Ok(tx) => Confirm(s, tx.(witnessSigs := sigs)).0
    case Err(_) => s
  }

  function PayAll(scheme: Scheme, kp: KeyPair, s: NodeState, ps: seq<Payment>): NodeState
    decreases |ps|
  {
    if ps == [] then s else PayAll(scheme, kp, Pay(scheme, kp, s, ps[0]), ps[1..])
  }

  /** One payment later: still in agreement, with the same supply and at most one more entry. */
  ghost predicate Continues(b: Books, L: Ledger, L': Ledger, me: PubKey) {
    LogAgrees(b, L', me) && Supply(L') == Supply(L) && LatestSeq(L', me) <= LatestSeq(L, me) + 1
  }

  lemma PayAgrees(b: Books, scheme: Scheme, kp: KeyPair, s: NodeState, p: Payment)
    requires LogAgrees(b, s.ledger, kp.pub) && Supply(s.ledger) <= MAX_AMOUNT
    requires p.to != kp.pub && LatestSeq(s.ledger, kp.pub) < TWO_64 - 1
    ensures Continues(b, s.ledger, Pay(scheme, kp, s, p).ledger, kp.pub)
  {
    var r := NextBuilt(scheme, kp, s.ledger, p);
    ConfirmBuiltAgrees(b, s, kp.pub, r, p.sigs);
  }

  lemma NextBuilt(scheme: Scheme, kp: KeyPair, L: Ledger, p: Payment) returns (r: Result<Transaction>)
    requires LatestSeq(L, kp.pub) < TWO_64 - 1
    ensures r == Build(L, p.tips, scheme, kp, p.to, p.amount, p.nonce, p.now)
    ensures r.Ok? ==> r.value.from == kp.pub && r.value.to == p.to && r.value.amount > 0
                      && r.value.sequence == LatestSeq(L, kp.pub) + 1
  {
    BuiltFields(L, p.tips, scheme, kp, p.to, p.amount, p.nonce, p.now);
    r := Build(L, p.tips, scheme, kp, p.to, p.amount, p.nonce, p.now);
  }

  lemma ConfirmBuiltAgrees(b: Books, s: NodeState, me: PubKey, r: Result<Transaction>, sigs: seq<WitnessSignature>)
    requires LogAgrees(b, s.ledger, me) && Supply(s.ledger) <= MAX_AMOUNT
    requires r.Ok? ==> r.value.from == me && r.value.to != me && r.value.amount > 0
                       && r.value.sequence == LatestSeq(s.ledger, me) + 1
    ensures Continues(b, s.ledger, ConfirmBuilt(s, r, sigs).ledger, me)
  {
    if r.Ok? {
      BuiltConfirmAgrees(b, s, me, r.value.(witnessSigs := sigs));
    }
  }

  lemma BuiltConfirmAgrees(b: Books, s: NodeState, me: PubKey, tx: Transaction)
    requires LogAgrees(b, s.ledger, me) && Supply(s.ledger) <= MAX_AMOUNT
    requires tx.from == me && tx.to != me && tx.amount > 0 && tx.sequence == LatestSeq(s.ledger, me) + 1
    ensures Continues(b, s.ledger, Confirm(s, tx).0.ledger, me)
  {
    ConfirmConserves(s, tx);
    if Confirm(s, tx).1 == None {
      ConfirmRecords(s, tx);
      ConfirmKeepsAgreementIff(b, s, me, tx);
    }
  }

  /** In every serial run the balances, the pool and the latest sequence are what replaying the log gives. */
  lemma {:induction false} SerialRunAgrees(b: Books, scheme: Scheme, kp: KeyPair, s: NodeState, ps: seq<Payment>)
    requires LogAgrees(b, s.ledger, kp.pub) && Supply(s.ledger) <= MAX_AMOUNT
    requires forall p :: p in ps ==> p.to != kp.pub
    requires LatestSeq(s.ledger, kp.pub) + |ps| < TWO_64
    ensures LogAgrees(b, PayAll(scheme, kp, s, ps).ledger, kp.pub)
    decreases |ps|
  {
    if ps != [] {
      PayAgrees(b, scheme, kp, s, ps[0]);
      SerialRunAgrees(b, scheme, kp, Pay(scheme, kp, s, ps[0]), ps[1..]);
    }
  }

  /** A ledger without a sequence for `me` agrees with its empty log. */
  lemma EmptyLogAgrees(L: Ledger, me: PubKey)
    requires LatestSeq(L, me) == 0
    ensures LogAgrees(BooksOf(L), L, me)
  {
  }

  /** In particular from a ledger in which the node has sent nothing yet. */
  lemma SerialRunFromFresh(scheme: Scheme, kp: KeyPair, s: NodeState, ps: seq<Payment>)
    requires LatestSeq(s.ledger, kp.pub) == 0 && Supply(s.ledger) <= MAX_AMOUNT && |ps| < TWO_64
    requires forall p :: p in ps ==> p.to != kp.pub
    ensures LogAgrees(BooksOf(s.ledger), PayAll(scheme, kp, s, ps).ledger, kp.pub)
  {
    EmptyLogAgrees(s.ledger, kp.pub);
    SerialRunAgrees(BooksOf(s.ledger), scheme, kp, s, ps);
  }

  // ---- Exactly which runs end in agreement --------------------------------------------------------

  /** What the first n logged transfers cost. */
  ghost function Spent(L: Ledger, me: PubKey, n: nat): nat
    requires n < TWO_64 && Logged(L, me, n)
  {
    if n == 0 then 0 else Spent(L, me, n - 1) + Cost(L.txs[(me, n)])
  }

  lemma {:induction false} SpentReplayed(b: Books, L: Ledger, me: PubKey, n: nat)
    requires n < TWO_64 && Logged(L, me, n)
    ensures Owned(Replay(b, Log(L, me, n)), me) == Owned(b, me) - Spent(L, me, n)
    decreases n
  {
    if n > 0 {
      SpentReplayed(b, L, me, n - 1);
      var log := Log(L, me, n);
      assert log[..n - 1] == Log(L, me, n - 1);
      MoveDebits(Replay(b, log[..n - 1]), log[n - 1]);
    }
  }

  lemma {:induction false} SpentMonotone(L: Ledger, me: PubKey, m: nat, n: nat)
    requires m <= n < TWO_64 && Logged(L, me, n)
    ensures Spent(L, me, m) <= Spent(L, me, n)
    decreases n
  {
    if m < n {
      SpentMonotone(L, me, m, n - 1);
    }
  }

  /** Writing entry q changes what the first n entries cost by the difference, if it is one of them. */
  lemma {:induction false} SpentRewritten(L: Ledger, L': Ledger, me: PubKey, n: nat, q: uint64, entry: Transaction)
    requires n < TWO_64 && Logged(L, me, n) && q >= 1 && L'.txs == L.txs[(me, q) := entry]
    requires entry.from == me && entry.to != me && entry.amount > 0
    ensures Logged(L', me, n)
    ensures Spent(L', me, n) == Spent(L, me, n) + if q <= n then Cost(entry) - Cost(L.txs[(me, q)]) else 0
    decreases n
  {
    if n > 0 {
      SpentRewritten(L, L', me, n - 1, q, entry);
    }
  }

  /** An amount that reached an account by another way than the log. */
  function WithCredit(b: Books, pk: PubKey, amount: nat): Books {
    b.(bal := b.bal[pk := Owned(b, pk) + amount])
  }

  lemma {:induction false} ReplayCredited(b: Books, log: seq<Transaction>, pk: PubKey, amount: nat)
    ensures Replay(WithCredit(b, pk, amount), log) == WithCredit(Replay(b, log), pk, amount)
    decreases |log|
  {
    if log != [] {
      ReplayCredited(b, log[..|log| - 1], pk, amount);
      MoveCredited(Replay(b, log[..|log| - 1]), log[|log| - 1], pk, amount);
    }
  }

  lemma MoveCredited(b: Books, tx: Transaction, pk: PubKey, amount: nat)
    ensures Move(WithCredit(b, pk, amount), tx) == WithCredit(Move(b, tx), pk, amount)
  {
    var c, d := Move(WithCredit(b, pk, amount), tx), WithCredit(Move(b, tx), pk, amount);
    assert c.bal.Keys == d.bal.Keys;
    assert forall k :: k in c.bal ==> c.bal[k] == d.bal[k];
  }

  /** Whether a step credits an account from gossip. */
  predicate Credits(L: Ledger, step: LocalStep) {
    step.ApplyStep? && step.gossiped.hash !in L.applied && Apply(L, step.gossiped).1 == None
  }

  /** The books to replay the log over: what gossip credits during the run is added to the initial ones. */
  function Base(scheme: Scheme, kp: KeyPair, b: Books, s: LocalState, steps: seq<LocalStep>): Books
    decreases |steps|
  {
    if steps == [] then b else
      Base(scheme, kp, BaseAfter(b, s.node.ledger, steps[0]), Take(scheme, kp, s, steps[0]), steps[1..])
  }

  function BaseAfter(b: Books, L: Ledger, step: LocalStep): Books {
    if Credits(L, step) then WithCredit(b, step.gossiped.to, step.gossiped.amount) else b
  }

  /** What gossip can bring at most. */
  function Incoming(steps: seq<LocalStep>): nat
    decreases |steps|
  {
    if steps == [] then 0 else (if steps[0].ApplyStep? then steps[0].gossiped.amount else 0) + Incoming(steps[1..])
  }

  /** A step that confirms out of order: with a sequence other than the one after the latest. */
  predicate OutOfOrder(s: LocalState, me: PubKey, step: LocalStep) {
    && step.ConfirmStep? && step.tx in s.built
    && Confirm(s.node, step.tx.(witnessSigs := step.sigs)).1 == None
    && step.tx.sequence != LatestSeq(s.node.ledger, me) + 1
  }

  /** Every transaction the run confirms has the sequence after the latest one. */
  predicate InOrder(scheme: Scheme, kp: KeyPair, s: LocalState, steps: seq<LocalStep>)
    decreases |steps|
  {
    steps != [] ==> !OutOfOrder(s, kp.pub, steps[0]) && InOrder(scheme, kp, Take(scheme, kp, s, steps[0]), steps[1..])
  }

  /** Every transaction built is for somebody else. */
  predicate ToOthers(me: PubKey, step: LocalStep) {
    step.BuildStep? ==> step.to != me
  }

  ghost predicate Queued(built: set<Transaction>, me: PubKey, M: nat) {
    forall tx :: tx in built ==> IsTransferOut(tx, me) && 1 <= tx.sequence <= M + 1
  }

  predicate IsTransferOut(tx: Transaction, me: PubKey) {
    tx.from == me && tx.to != me && tx.amount > 0
  }

  /**
   As long as every confirmation was in order, the log agrees and its last entry is the latest. From
   the first one that was not, more has left the account than all entries of the log account for.
   */
  ghost predicate LogKept(b: Books, L: Ledger, me: PubKey, M: nat, inOrder: bool) {
    && M < TWO_64 && Logged(L, me, M) && LatestSeq(L, me) <= M
    && if inOrder then LatestSeq(L, me) == M && LogAgrees(b, L, me)
       else Owned(b, me) - Balance(L, me) > Spent(L, me, M)
  }

  lemma KeptDecides(b: Books, L: Ledger, me: PubKey, M: nat, inOrder: bool)
    requires LogKept(b, L, me, M, inOrder)
    ensures LogAgrees(b, L, me) <==> inOrder
  {
    SpentReplayed(b, L, me, LatestSeq(L, me));
    SpentMonotone(L, me, LatestSeq(L, me), M);
    assert Owned(BooksOf(L), me) == Balance(L, me);
  }

  /** One confirmed transfer: the account pays its cost, the log gains it, and loses the entry it replaces. */
  lemma RecordKept(b: Books, L: Ledger, L': Ledger, me: PubKey, M: nat, inOrder: bool, entry: Transaction)
    requires LogKept(b, L, me, M, inOrder) && M + 1 < TWO_64
    requires IsTransferOut(entry, me) && 1 <= entry.sequence <= M + 1
    requires L'.txs == L.txs[(me, entry.sequence) := entry] && LatestSeq(L', me) == entry.sequence
    requires Balance(L', me) == Balance(L, me) - Cost(entry) && BooksOf(L') == Move(BooksOf(L), entry)
    ensures var M' := if entry.sequence == M + 1 then M + 1 else M;
            LogKept(b, L', me, M', inOrder && entry.sequence == LatestSeq(L, me) + 1)
  {
    var q := entry.sequence;
    SpentRewritten(L, L', me, M, q, entry);
    if inOrder {
      AgreementAfter(b, L, L', me, entry);
      SpentReplayed(b, L, me, M);
      assert Owned(BooksOf(L), me) == Balance(L, me);
    }
  }

  /** One confirmation, or its refusal. */
  lemma ConfirmKept(b: Books, s: NodeState, me: PubKey, M: nat, inOrder: bool, tx: Transaction) returns (M': nat)
    requires LogKept(b, s.ledger, me, M, inOrder) && M + 1 < TWO_64 && Supply(s.ledger) <= MAX_AMOUNT
    requires IsTransferOut(tx, me) && 1 <= tx.sequence <= M + 1
    ensures M <= M' <= M + 1
    ensures var (s', r) := Confirm(s, tx);
            && Supply(s'.ledger) == Supply(s.ledger)
            && LogKept(b, s'.ledger, me, M', inOrder && (r == None ==> tx.sequence == LatestSeq(s.ledger, me) + 1))
  {
    ConfirmConserves(s, tx);
    M' := M;
    if Confirm(s, tx).1 == None {
      ConfirmMoves(s, tx);
      ConfirmRecords(s, tx);
      RecordKept(b, s.ledger, Confirm(s, tx).0.ledger, me, M, inOrder, tx.(status := Confirmed));
      M' := if tx.sequence == M + 1 then M + 1 else M;
    }
  }

  lemma ApplySupply(L: Ledger, tx: Transaction)
    ensures Supply(Apply(L, tx).0) <= Supply(L) + tx.amount
  {
    SumUpdate(L.bal, tx.to, Balance(L, tx.to) + tx.amount);
  }

  /** A credit from gossip is made to the ledger and to the books the log is replayed over. */
  lemma ApplyKept(b: Books, L: Ledger, me: PubKey, M: nat, inOrder: bool, step: LocalStep)
    requires LogKept(b, L, me, M, inOrder) && step.ApplyStep?
    ensures LogKept(BaseAfter(b, L, step), Apply(L, step.gossiped).0, me, M, inOrder)
  {
    if Credits(L, step) {
      AppliedBooks(L, step.gossiped);
      CreditKept(b, L, Apply(L, step.gossiped).0, me, M, inOrder, step.gossiped.to, step.gossiped.amount);
    }
  }

  lemma AppliedBooks(L: Ledger, tx: Transaction)
    requires tx.hash !in L.applied && Apply(L, tx).1 == None
    ensures var L' := Apply(L, tx).0;
            L'.txs == L.txs && L'.seqs == L.seqs && BooksOf(L') == WithCredit(BooksOf(L), tx.to, tx.amount)
  {
  }

  lemma CreditKept(b: Books, L: Ledger, L': Ledger, me: PubKey, M: nat, inOrder: bool, pk: PubKey, amount: nat)
    requires LogKept(b, L, me, M, inOrder)
    requires L'.txs == L.txs && L'.seqs == L.seqs && BooksOf(L') == WithCredit(BooksOf(L), pk, amount)
    ensures LogKept(WithCredit(b, pk, amount), L', me, M, inOrder)
  {
    SameLog(L, L', me, M);
    if inOrder {
      ReplayCredited(b, Log(L, me, M), pk, amount);
    } else {
      assert Balance(L', me) == Owned(BooksOf(L'), me);
    }
  }

  lemma {:induction false} SameLog(L: Ledger, L': Ledger, me: PubKey, n: nat)
    requires n < TWO_64 && Logged(L, me, n) && L'.txs == L.txs
    ensures Logged(L', me, n) && Log(L', me, n) == Log(L, me, n) && Spent(L', me, n) == Spent(L, me, n)
    decreases n
  {
    if n > 0 {
      SameLog(L, L', me, n - 1);
    }
  }

  lemma QueuedMore(built: set<Transaction>, r: Result<Transaction>, L: Ledger, me: PubKey, M: nat)
    requires Queued(built, me, M) && LatestSeq(L, me) <= M && M + 1 < TWO_64
    requires r.Ok? ==> IsTransferOut(r.value, me) && r.value.sequence == (LatestSeq(L, me) + 1) % TWO_64
    ensures Queued(if r.Ok? then built + {r.value} else built, me, M)
  {
  }

  lemma BuildQueued(scheme: Scheme, kp: KeyPair, s: LocalState, step: LocalStep, M: nat)
    requires step.BuildStep? && step.to != kp.pub && Queued(s.built, kp.pub, M)
    requires LatestSeq(s.node.ledger, kp.pub) <= M && M + 1 < TWO_64
    ensures Take(scheme, kp, s, step).node == s.node && Queued(Take(scheme, kp, s, step).built, kp.pub, M)
  {
    var r := BuildTaken(scheme, kp, s, step);
    QueuedMore(s.built, r, s.node.ledger, kp.pub, M);
  }

  lemma StepKept(scheme: Scheme, kp: KeyPair, b: Books, s: LocalState, step: LocalStep, M: nat, inOrder: bool)
    returns (M': nat)
    requires LogKept(b, s.node.ledger, kp.pub, M, inOrder) && M + 1 < TWO_64 && Queued(s.built, kp.pub, M)
    requires ToOthers(kp.pub, step) && Supply(s.node.ledger) <= MAX_AMOUNT
    ensures M <= M' <= M + 1
    ensures var s' := Take(scheme, kp, s, step);
            && LogKept(BaseAfter(b, s.node.ledger, step), s'.node.ledger, kp.pub, M',
                    inOrder && !OutOfOrder(s, kp.pub, step))
            && Queued(s'.built, kp.pub, M')
            && Supply(s'.node.ledger) <= Supply(s.node.ledger) + Incoming([step])
  {
    M' := M;
    match step {
      case BuildStep(_, _, _, _, _) =>
        BuildQueued(scheme, kp, s, step, M);
      case ApplyStep(tx) =>
        ApplySupply(s.node.ledger, tx);
        ApplyKept(b, s.node.ledger, kp.pub, M, inOrder, step);
      case ConfirmStep(tx, sigs) =>
        if tx in s.built {
          M' := ConfirmKept(b, s.node, kp.pub, M, inOrder, tx.(witnessSigs := sigs));
        }
    }
  }

  lemma {:induction false} RunKept(
      scheme: Scheme, kp: KeyPair, b: Books, s: LocalState, steps: seq<LocalStep>, M: nat, inOrder: bool)
    returns (M': nat)
    requires LogKept(b, s.node.ledger, kp.pub, M, inOrder) && M + |steps| < TWO_64 && Queued(s.built, kp.pub, M)
    requires forall step :: step in steps ==> ToOthers(kp.pub, step)
    requires Supply(s.node.ledger) + Incoming(steps) <= MAX_AMOUNT
    ensures LogKept(Base(scheme, kp, b, s, steps), TakeAll(scheme, kp, s, steps).node.ledger, kp.pub, M',
                 inOrder && InOrder(scheme, kp, s, steps))
    decreases |steps|
  {
    M' := M;
    if steps != [] {
      var step := steps[0];
      assert Incoming([step]) + Incoming(steps[1..]) == Incoming(steps);
      var mid := StepKept(scheme, kp, b, s, step, M, inOrder);
      M' := RunKept(scheme, kp, BaseAfter(b, s.node.ledger, step), Take(scheme, kp, s, step), steps[1..], mid,
                    inOrder && !OutOfOrder(s, kp.pub, step));
    }
  }

  /**
   In every order of builds, confirmations and gossip credits, a log in agreement still agrees at the
   end exactly if every transaction confirmed on the way had the sequence after the latest. Once one
   had not, nothing that follows repairs it.
   */
  lemma RunAgreesIff(scheme: Scheme, kp: KeyPair, b: Books, s: LocalState, steps: seq<LocalStep>)
    requires LogAgrees(b, s.node.ledger, kp.pub) && Queued(s.built, kp.pub, LatestSeq(s.node.ledger, kp.pub))
    requires forall step :: step in steps ==> ToOthers(kp.pub, step)
    requires Supply(s.node.ledger) + Incoming(steps) <= MAX_AMOUNT
    requires LatestSeq(s.node.ledger, kp.pub) + |steps| < TWO_64
    ensures LogAgrees(Base(scheme, kp, b, s, steps), TakeAll(scheme, kp, s, steps).node.ledger, kp.pub)
       <==> InOrder(scheme, kp, s, steps)
  {
    var M := LatestSeq(s.node.ledger, kp.pub);
    var M' := RunKept(scheme, kp, b, s, steps, M, true);
    KeptDecides(Base(scheme, kp, b, s, steps), TakeAll(scheme, kp, s, steps).node.ledger, kp.pub, M',
                InOrder(scheme, kp, s, steps));
  }

  // ---- Two transactions that share a sequence -----------------------------------------------------

  /** Two payments are built before the first is confirmed, then both are confirmed. */
  function SharedSequenceRun(scheme: Scheme, kp: KeyPair, to: PubKey, now: Time): seq<LocalStep> {
    var L := Funded(kp.pub).ledger;
    var t, u := Build(L, [], scheme, kp, to, 1000, 0, now), Build(L, [], scheme, kp, to, 1000, 1, now);
    [BuildStep([], to, 1000, 0, now), BuildStep([], to, 1000, 1, now)]
    + if t.Ok? && u.Ok? then [ConfirmStep(t.value, []), ConfirmStep(u.value, [])] else []
  }

  /** Both are paid for, 1001 each, but only one is in the log: log and balances disagree. */
  lemma SharedSequenceDisagrees(scheme: Scheme, kp: KeyPair, to: PubKey, now: Time)
    requires to != kp.pub
    ensures var end := TakeAll(scheme, kp, LocalState(Funded(kp.pub), {}), SharedSequenceRun(scheme, kp, to, now));
            var L := end.node.ledger;
            && Balance(L, kp.pub) == 10_000 - 2 * 1001
            && LatestSeq(L, kp.pub) == 1
            && !LogAgrees(BooksOf(Funded(kp.pub).ledger), L, kp.pub)
  {
    var s := Funded(kp.pub);
    var t := FundedPays(scheme, kp, to, 0, now);
    var u := FundedPays(scheme, kp, to, 1, now);
    FundedSupply(kp.pub);
    EmptyLogAgrees(s.ledger, kp.pub);
    SharedSequenceEnds(scheme, kp, to, now, t, u);
    var mid := Confirm(s, t.(witnessSigs := [])).0;
    PaysAgain(s, t.(witnessSigs := []), u.(witnessSigs := []));
    ConfirmKeepsAgreementIff(BooksOf(s.ledger), s, kp.pub, t.(witnessSigs := []));
    ConfirmKeepsAgreementIff(BooksOf(s.ledger), mid, kp.pub, u.(witnessSigs := []));
  }

  lemma SharedSequenceEnds(scheme: Scheme, kp: KeyPair, to: PubKey, now: Time, t: Transaction, u: Transaction)
    requires Build(Funded(kp.pub).ledger, [], scheme, kp, to, 1000, 0, now) == Ok(t)
    requires Build(Funded(kp.pub).ledger, [], scheme, kp, to, 1000, 1, now) == Ok(u)
    ensures var mid := Confirm(Funded(kp.pub), t.(witnessSigs := [])).0;
            var end := TakeAll(scheme, kp, LocalState(Funded(kp.pub), {}), SharedSequenceRun(scheme, kp, to, now));
            end.node == Confirm(mid, u.(witnessSigs := [])).0
  {
    var s := Funded(kp.pub);
    var a, b := BuildStep([], to, 1000, 0, now), BuildStep([], to, 1000, 1, now);
    var c, d := ConfirmStep(t, []), ConfirmStep(u, []);
    var steps := SharedSequenceRun(scheme, kp, to, now);
    assert steps == [a, b, c, d];
    assert steps[1..] == [b, c, d] && [b, c, d][1..] == [c, d] && [c, d][1..] == [d] && [d][1..] == [];
    var s1, s2 := LocalState(s, {} + {t}), LocalState(s, {} + {t} + {u});
    assert Take(scheme, kp, LocalState(s, {}), a) == s1;
    assert Take(scheme, kp, s1, b) == s2;
    var s3 := Take(scheme, kp, s2, c);
    var s4 := Take(scheme, kp, s3, d);
    assert TakeAll(scheme, kp, s3, [d]) == TakeAll(scheme, kp, s4, []) == s4;
    assert TakeAll(scheme, kp, s2, [c, d]) == s4;
    assert TakeAll(scheme, kp, s1, [b, c, d]) == s4;
  }

  /** A second payment of 1000 from the same account is confirmed as well. */
  lemma PaysAgain(s: NodeState, t: Transaction, u: Transaction)
    requires t.from == u.from && t.to == u.to && t.from != t.to && t.amount == u.amount == 1000
    requires t.parents == u.parents == [] && Supply(s.ledger) == 10_000 == Balance(s.ledger, t.from)
    ensures Confirm(s, t).1 == None && Supply(Confirm(s, t).0.ledger) == 10_000
    ensures var mid := Confirm(s, t).0;
            Confirm(mid, u).1 == None && Balance(Confirm(mid, u).0.ledger, t.from) == 10_000 - 2 * 1001
            && LatestSeq(mid.ledger, t.from) == t.sequence && LatestSeq(Confirm(mid, u).0.ledger, t.from) == u.sequence
  {
    ConfirmConserves(s, t);
    ConfirmConserves(Confirm(s, t).0, u);
    ConfirmRecords(s, t);
    ConfirmRecords(Confirm(s, t).0, u);
  }
}
