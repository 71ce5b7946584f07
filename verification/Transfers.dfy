/** Building, witnessing, confirming and applying a transaction, as transitions of a node's typed state. */
module Transfers {
  import opened Bytes
  import opened Types
  import opened Amounts
  import opened Graph
  import opened Insertion
  import opened Crypto
  import opened Ledgers
  import opened Sums

  datatype NodeState = NodeState(ledger: Ledger, edges: Edges)

  /** What a transfer costs its sender. */
  function Cost(tx: Transaction): nat {
    tx.amount + BondAmount(tx.amount)
  }

  /** A transaction of the local key on the current tips, or why there is none. */
  function Build(L: Ledger, tips: seq<Hash>, scheme: Scheme, kp: KeyPair, to: PubKey, amount: Amount, nonce: uint64,
                 now: Time): Result<Transaction>
  {
    if ValidateAmount(amount).Some? then
      Err(ValidateAmount(amount).value)
    else
      match SafeAdd(amount, BondAmount(amount))
      case Err(e) => Err(e)
      case Ok(needed) =>
        if Balance(L, kp.pub) < needed then
          Err(InsufficientBalance)
        else
          var sequence := (LatestSeq(L, kp.pub) + 1) % TWO_64;
          Ok(SignedTx(scheme, kp,
               Transaction(ZeroHash(), sequence, nonce, kp.pub, to, amount, NoSignature(), tips, [], now, Pending)))
  }

  /** The balance a witness goes by: the smaller of the snapshot's and its own record, whichever it has. */
  function EffectiveBalance(L: Ledger, from: PubKey, snapshot: Option<Snapshot>): Amount {
    var claimed := if snapshot.Some? then snapshot.value.balance else 0;
    if from in L.bal && (snapshot.None? || L.bal[from] < claimed) then L.bal[from] else claimed
  }

  /** A witness's verdict on a transaction. The error of the addition is dropped, so an overflowing cost counts as 0. */
  function Verify(L: Ledger, scheme: Scheme, tx: Transaction, snapshot: Option<Snapshot>, now: Time): Option<Error> {
    if snapshot.Some? && snapshot.value.IsExpired(now) then Some(SnapshotExpired)
    else if !TxSignatureValid(scheme, tx) then Some(InvalidSignature)
    else if LatestSeq(L, tx.from) > 0 && tx.sequence != (LatestSeq(L, tx.from) + 1) % TWO_64 then Some(InvalidSequence)
    else if EffectiveBalance(L, tx.from, snapshot) < AddOrZero(tx.amount, BondAmount(tx.amount)) then
      Some(InsufficientBalance)
    else None
  }

  function AddToPool(L: Ledger, bond: Amount): Ledger {
    match SafeAdd(Pool(L), bond)
    case Ok(p) => L.(pool := Some(p))
    case Err(_) => L
  }

  /** Confirming: every check, the graph, the batch of four writes, then the bond. */
  function Confirm(s: NodeState, tx: Transaction): (NodeState, Option<Error>) {
    var bond := BondAmount(tx.amount);
    match SafeAdd(tx.amount, bond)
    case Err(e) => (s, Some(e))
    case Ok(total) =>
      match SafeSub(Balance(s.ledger, tx.from), total)
      case Err(e) => (s, Some(e))
      case Ok(senderBal) =>
        match SafeAdd(Balance(s.ledger, tx.to), tx.amount)
        case Err(e) => (s, Some(e))
        case Ok(receiverBal) =>
          var (edges, ok) := Advance(s.edges, tx.hash, tx.parents);
          if !ok then
            (s.(edges := edges), Some(DagCycle))
          else
            var L := Recorded(s.ledger, tx.(status := Confirmed), senderBal, receiverBal);
            (NodeState(AddToPool(L, bond), edges), None)
  }

  /** Crediting a transaction learnt from gossip, once per hash. */
  function Apply(L: Ledger, tx: Transaction): (Ledger, Option<Error>) {
    if tx.hash in L.applied then
      (L, None)
    else
      match SafeAdd(Balance(L, tx.to), tx.amount)
      case Err(e) => (L, Some(e))
      case Ok(n) => (L.(bal := L.bal[tx.to := n], applied := L.applied + {tx.hash}), None)
  }

  // ---- Conservation ---------------------------------------------------------------------------

  /** All balances and the reward pool. */
  ghost function Supply(L: Ledger): nat {
    Sum(L.bal) + Pool(L)
  }

  lemma SupplyBounds(L: Ledger, pk: PubKey)
    ensures Balance(L, pk) + Pool(L) <= Supply(L)
  {
    if pk in L.bal {
      EntryBound(L.bal, pk);
    }
  }

  lemma PairBounds(L: Ledger, p: PubKey, q: PubKey)
    requires p != q
    ensures Balance(L, p) + Balance(L, q) <= Supply(L)
  {
    if p in L.bal && q in L.bal {
      PairBound(L.bal, p, q);
    } else {
      SupplyBounds(L, p);
      SupplyBounds(L, q);
    }
  }

  /** The supply after the two balance writes, of different or of the same account. */
  lemma RecordedSum(L: Ledger, tx: Transaction, senderBal: Amount, receiverBal: Amount)
    ensures var L' := Recorded(L, tx, senderBal, receiverBal);
            Sum(L'.bal) == Sum(L.bal) - Balance(L, tx.from) + receiverBal
              + (if tx.from == tx.to then 0 else senderBal - Balance(L, tx.to))
  {
    var b: map<PubKey, nat> := L.bal;
    SumUpdate(b, tx.from, senderBal);
    SumUpdate(b[tx.from := senderBal], tx.to, receiverBal);
    assert Recorded(L, tx, senderBal, receiverBal).bal == b[tx.from := senderBal][tx.to := receiverBal];
  }

  /**
   A transfer to another account, in a supply within the maximum: it succeeds exactly when the
   sender covers amount and bond and the graph accepts it, and it moves money without creating any.
   */
  lemma ConfirmConserves(s: NodeState, tx: Transaction)
    requires tx.from != tx.to && Supply(s.ledger) <= MAX_AMOUNT
    ensures var (s', r) := Confirm(s, tx);
            && (r == None <==> Balance(s.ledger, tx.from) >= Cost(tx) && Advance(s.edges, tx.hash, tx.parents).1)
            && Supply(s'.ledger) == Supply(s.ledger)
            && (r != None ==> s'.ledger == s.ledger)
            && (r == None ==>
                  && Balance(s'.ledger, tx.from) == Balance(s.ledger, tx.from) - Cost(tx)
                  && Balance(s'.ledger, tx.to) == Balance(s.ledger, tx.to) + tx.amount
                  && Pool(s'.ledger) == Pool(s.ledger) + BondAmount(tx.amount))
    ensures forall pk :: pk != tx.from && pk != tx.to ==> Balance(Confirm(s, tx).0.ledger, pk) == Balance(s.ledger, pk)
  {
    var L := s.ledger;
    SupplyBounds(L, tx.from);
    PairBounds(L, tx.from, tx.to);
    if Balance(L, tx.from) >= Cost(tx) {
      RecordedSum(L, tx.(status := Confirmed), Balance(L, tx.from) - Cost(tx), Balance(L, tx.to) + tx.amount);
    }
  }

  /** The one exception: a transfer to oneself creates what it costs, so the supply is kept only if it moves nothing. */
  lemma ConfirmConservesIff(s: NodeState, tx: Transaction)
    requires Supply(s.ledger) <= MAX_AMOUNT && Confirm(s, tx).1 == None
    ensures Supply(Confirm(s, tx).0.ledger) == Supply(s.ledger) + if tx.from == tx.to then Cost(tx) else 0
    ensures Supply(Confirm(s, tx).0.ledger) == Supply(s.ledger) <==> tx.from != tx.to || tx.amount == 0
  {
    if tx.from != tx.to {
      ConfirmConserves(s, tx);
    } else {
      var L := s.ledger;
      SupplyBounds(L, tx.from);
      RecordedSum(L, tx.(status := Confirmed), Balance(L, tx.from) - Cost(tx), Balance(L, tx.from) + tx.amount);
      assert Supply(Confirm(s, tx).0.ledger) == Supply(L) + Cost(tx);
    }
  }

  /** A refused transaction changes no balance, sequence or log entry. */
  lemma FailureKeepsLedger(s: NodeState, tx: Transaction)
    requires Confirm(s, tx).1 != None
    ensures Confirm(s, tx).0.ledger == s.ledger
  {
  }

  /** What a confirmation records about its sender. */
  lemma ConfirmRecords(s: NodeState, tx: Transaction)
    requires Confirm(s, tx).1 == None
    ensures var L' := Confirm(s, tx).0.ledger;
            && LatestSeq(L', tx.from) == tx.sequence
            && L'.txs == s.ledger.txs[(tx.from, tx.sequence) := tx.(status := Confirmed)]
  {
  }

  /** What a confirmation does to the graph: an edge to each parent, or to those before the first one refused. */
  lemma ConfirmExtendsGraph(s: NodeState, tx: Transaction)
    ensures var (s', r) := Confirm(s, tx);
            && (r == None ==> ExtendsByAll(s.edges, s'.edges, tx.hash, tx.parents))
            && (r == Some(DagCycle) ==>
                  var i := Handled(s.edges, tx.hash, tx.parents);
                  i < |tx.parents| && ExtendsByAll(s.edges, s'.edges, tx.hash, tx.parents[..i]))
            && (r != None && r != Some(DagCycle) ==> s'.edges == s.edges)
  {
    AdvanceAddsPrefix(s.edges, tx.hash, tx.parents);
    assert tx.parents[..|tx.parents|] == tx.parents;
  }

  /** A transaction that was built on the current tips is the only tip once it is confirmed. */
  lemma ConfirmedBecomesTip(s: NodeState, tx: Transaction, h: Hash)
    requires Fresh(s.edges, tx.hash, tx.parents) && tx.parents != []
    requires forall p :: p in tx.parents <==> IsTip(s.edges, p)
    requires Confirm(s, tx).1 == None
    ensures IsTip(Confirm(s, tx).0.edges, h) <==> h == tx.hash
  {
    AdvanceTips(s.edges, tx.hash, tx.parents, h);
    assert Confirm(s, tx).0.edges == Advance(s.edges, tx.hash, tx.parents).0;
  }

  /** Why a confirmation is refused: the first check that fails, in this order. */
  lemma ConfirmRefusals(s: NodeState, tx: Transaction)
    ensures var r := Confirm(s, tx).1;
            var L := s.ledger;
            var tooMuch := Cost(tx) > 9_000_000_000_000_000;
            var short := Balance(L, tx.from) < Cost(tx);
            var full := Balance(L, tx.to) + tx.amount > 9_000_000_000_000_000;
            && (r == None <==> !tooMuch && !short && !full && Advance(s.edges, tx.hash, tx.parents).1)
            && (r == Some(AmountUnderflow) <==> !tooMuch && short)
            && (r == Some(DagCycle) <==> !tooMuch && !short && !full && !Advance(s.edges, tx.hash, tx.parents).1)
            && (r == Some(AmountExceedMax) || r == Some(AmountOverflow) <==> tooMuch || (!short && full))
  {
  }

  function ConfirmAll(s: NodeState, txs: seq<Transaction>): NodeState
    decreases |txs|
  {
    if txs == [] then s else ConfirmAll(Confirm(s, txs[0]).0, txs[1..])
  }

  /** Every run of transfers between different accounts keeps the supply and keeps every balance within the maximum. */
  lemma {:induction false} RunConserves(s: NodeState, txs: seq<Transaction>)
    requires Supply(s.ledger) <= MAX_AMOUNT
    requires forall tx :: tx in txs ==> tx.from != tx.to
    ensures Supply(ConfirmAll(s, txs).ledger) == Supply(s.ledger)
    ensures forall pk :: Balance(ConfirmAll(s, txs).ledger, pk) <= MAX_AMOUNT
    decreases |txs|
  {
    if txs == [] {
      forall pk ensures Balance(s.ledger, pk) <= MAX_AMOUNT {
        SupplyBounds(s.ledger, pk);
      }
    } else {
      ConfirmConserves(s, txs[0]);
      RunConserves(Confirm(s, txs[0]).0, txs[1..]);
    }
  }

  /** In such a run the bond is always added: the overflow the source ignores never happens. */
  lemma BondAlwaysFits(s: NodeState, tx: Transaction)
    requires tx.from != tx.to && Supply(s.ledger) <= MAX_AMOUNT && Confirm(s, tx).1 == None
    ensures SafeAdd(Pool(s.ledger), BondAmount(tx.amount)).Ok?
  {
    SupplyBounds(s.ledger, tx.from);
  }

  // ---- Applying what was confirmed here ----------------------------------------------------------

  /**
   Confirming does not mark the hash as applied. If the confirmation comes back through gossip, the
   receiver is credited again, unless the hash was already marked or the amount is 0 or does not fit.
   */
  lemma ConfirmThenApply(s: NodeState, tx: Transaction)
    requires tx.from != tx.to && Supply(s.ledger) <= MAX_AMOUNT && Confirm(s, tx).1 == None
    ensures var L := Confirm(s, tx).0.ledger;
            Balance(Apply(L, tx).0, tx.to) == Balance(s.ledger, tx.to) + tx.amount
            <==> tx.hash in s.ledger.applied || tx.amount == 0
                 || Balance(s.ledger, tx.to) + 2 * tx.amount > MAX_AMOUNT
  {
    ConfirmConserves(s, tx);
  }

  // ---- Build, verify and confirm agree ------------------------------------------------------------

  /** What is built, and exactly when: the next transaction of the local key, covered by its balance. */
  lemma BuiltFields(L: Ledger, tips: seq<Hash>, scheme: Scheme, kp: KeyPair, to: PubKey, amount: Amount, nonce: uint64,
                    now: Time)
    ensures var r := Build(L, tips, scheme, kp, to, amount, nonce, now);
            && (r.Ok? <==> 0 < amount && amount + BondAmount(amount) <= MAX_AMOUNT
                           && Balance(L, kp.pub) >= amount + BondAmount(amount))
            && (r.Ok? ==>
                  && r.value.from == kp.pub && r.value.to == to && r.value.amount == amount && r.value.nonce == nonce
                  && r.value.parents == tips && r.value.status == Pending
                  && r.value.sequence == (LatestSeq(L, kp.pub) + 1) % TWO_64
                  && r.value.witnessSigs == [] && r.value.createdAt == now)
            && (r == Err(AmountZero) <==> amount == 0)
            && (r == Err(AmountExceedMax) <==> amount > 9_000_000_000_000_000)
            && (r == Err(AmountOverflow) <==> amount <= 9_000_000_000_000_000 < amount + BondAmount(amount))
            && (r == Err(InsufficientBalance) <==>
                  0 < amount && amount + BondAmount(amount) <= 9_000_000_000_000_000
                  && Balance(L, kp.pub) < amount + BondAmount(amount))
  {
  }

  /** It carries a valid signature. */
  lemma BuiltSigned(L: Ledger, tips: seq<Hash>, scheme: Scheme, kp: KeyPair, to: PubKey, amount: Amount, nonce: uint64,
                    now: Time)
    requires Signs(scheme, kp) && Build(L, tips, scheme, kp, to, amount, nonce, now).Ok?
    ensures TxSignatureValid(scheme, Build(L, tips, scheme, kp, to, amount, nonce, now).value)
  {
  }

  /** A witness that has no record of the sender, or one that covers the cost and continues the sequence. */
  predicate WitnessAgrees(W: Ledger, tx: Transaction) {
    && (tx.from in W.bal ==> W.bal[tx.from] >= Cost(tx))
    && (LatestSeq(W, tx.from) == 0 || tx.sequence == (LatestSeq(W, tx.from) + 1) % TWO_64)
  }

  /**
   What is built with a snapshot of the builder's balance is accepted by exactly the witnesses
   whose own records agree, as long as the snapshot has not expired.
   */
  lemma BuiltIsAccepted(L: Ledger, tips: seq<Hash>, scheme: Scheme, kp: KeyPair, to: PubKey, amount: Amount,
                        nonce: uint64, now: Time, W: Ledger, snapshot: Snapshot, later: Time)
    requires Signs(scheme, kp) && Build(L, tips, scheme, kp, to, amount, nonce, now).Ok?
    requires snapshot.balance == Balance(L, kp.pub) && later <= snapshot.expiresAt
    ensures var tx := Build(L, tips, scheme, kp, to, amount, nonce, now).value;
            Verify(W, scheme, tx, Some(snapshot), later) == None <==> WitnessAgrees(W, tx)
  {
    BuiltFields(L, tips, scheme, kp, to, amount, nonce, now);
    BuiltSigned(L, tips, scheme, kp, to, amount, nonce, now);
  }

  /** The hash covers the transaction's fields and the sender's signature covers the hash. */
  predicate IsSigned(scheme: Scheme, tx: Transaction) {
    && tx.hash == scheme.hash(TxPreimage(tx.sequence, tx.nonce, tx.from, tx.to, tx.amount, tx.parents))
    && scheme.verify(tx.from, tx.hash, tx.senderSig)
  }

  predicate IsExpiredAt(snapshot: Option<Snapshot>, now: Time) {
    snapshot.Some? && now > snapshot.value.expiresAt
  }

  /** The next sequence of the sender, if the witness knows of any. */
  predicate ContinuesSequence(W: Ledger, tx: Transaction) {
    tx.from in W.seqs && W.seqs[tx.from] > 0 ==> tx.sequence == (W.seqs[tx.from] + 1) % TWO_64
  }

  /** Every balance a witness knows for the sender, its own or the snapshot's, covers the cost. */
  predicate KnownBalancesCover(W: Ledger, tx: Transaction, snapshot: Option<Snapshot>) {
    && (tx.from in W.bal ==> W.bal[tx.from] >= Cost(tx))
    && (snapshot.Some? ==> snapshot.value.balance >= Cost(tx))
    && (tx.from !in W.bal && snapshot.None? ==> Cost(tx) == 0)
  }

  /**
   What a witness's verdict means. It accepts exactly what carries an unexpired snapshot, if any, and the
   sender's valid signature, continues the sequence, and is covered by every balance the witness knows, or
   costs more than the maximum; and each refusal names the first of these that fails.
   */
  lemma VerdictMeans(W: Ledger, scheme: Scheme, tx: Transaction, snapshot: Option<Snapshot>, now: Time)
    ensures var r := Verify(W, scheme, tx, snapshot, now);
            var expired, signed, next := IsExpiredAt(snapshot, now), IsSigned(scheme, tx), ContinuesSequence(W, tx);
            var covered := Cost(tx) > 9_000_000_000_000_000 || KnownBalancesCover(W, tx, snapshot);
            && (r == None <==> !expired && signed && next && covered)
            && (r == Some(SnapshotExpired) <==> expired)
            && (r == Some(InvalidSignature) <==> !expired && !signed)
            && (r == Some(InvalidSequence) <==> !expired && signed && !next)
            && (r == Some(InsufficientBalance) <==> !expired && signed && next && !covered)
  {
    assert TxSignatureValid(scheme, tx) <==> IsSigned(scheme, tx);
    BalanceVerdict(W, tx, snapshot);
  }

  lemma BalanceVerdict(W: Ledger, tx: Transaction, snapshot: Option<Snapshot>)
    ensures EffectiveBalance(W, tx.from, snapshot) >= AddOrZero(tx.amount, BondAmount(tx.amount))
       <==> Cost(tx) > 9_000_000_000_000_000 || KnownBalancesCover(W, tx, snapshot)
  {
  }

  /** On an unchanged state, confirming what was built can fail only because of the receiver's balance or the graph. */
  lemma BuiltIsCovered(s: NodeState, tips: seq<Hash>, scheme: Scheme, kp: KeyPair, to: PubKey, amount: Amount,
                       nonce: uint64, now: Time)
    requires Build(s.ledger, tips, scheme, kp, to, amount, nonce, now).Ok?
    ensures var tx := Build(s.ledger, tips, scheme, kp, to, amount, nonce, now).value;
            var fits := Balance(s.ledger, to) + amount <= MAX_AMOUNT;
            Confirm(s, tx).1 == None <==> fits && Advance(s.edges, tx.hash, tips).1
  {
    BuiltFields(s.ledger, tips, scheme, kp, to, amount, nonce, now);
  }

  /** When the cost does not overflow, the balance check is what it should be. */
  lemma AcceptanceMeansCovered(W: Ledger, scheme: Scheme, tx: Transaction, snapshot: Option<Snapshot>, now: Time)
    requires Cost(tx) <= MAX_AMOUNT && Verify(W, scheme, tx, snapshot, now) == None
    ensures KnownBalancesCover(W, tx, snapshot)
  {
  }

  /**
   The check rejects uncovered transfers for every witness record exactly when the cost is within the
   maximum: past it the dropped error makes any balance, even none, enough.
   */
  lemma BalanceCheckWorksIff(scheme: Scheme, tx: Transaction, now: Time)
    requires TxSignatureValid(scheme, tx)
    ensures (forall W: Ledger, snapshot: Option<Snapshot> ::
               Verify(W, scheme, tx, snapshot, now) == None ==> KnownBalancesCover(W, tx, snapshot))
       <==> Cost(tx) <= MAX_AMOUNT
  {
    if Cost(tx) <= MAX_AMOUNT {
      forall W: Ledger, snapshot: Option<Snapshot> | Verify(W, scheme, tx, snapshot, now) == None
        ensures KnownBalancesCover(W, tx, snapshot)
      {
        AcceptanceMeansCovered(W, scheme, tx, snapshot, now);
      }
    } else {
      var W := Ledger(map[], map[], map[], {}, None);
      assert Verify(W, scheme, tx, None, now) == None;
      assert !KnownBalancesCover(W, tx, None);
    }
  }

  /** A signed transfer of the maximum is accepted by a witness that knows of no balance at all. */
  lemma UncoveredMaximumAccepted(scheme: Scheme, kp: KeyPair, to: PubKey, nonce: uint64, now: Time)
    requires Signs(scheme, kp)
    ensures var tx := SignedTx(scheme, kp, Transaction(
              ZeroHash(), 1, nonce, kp.pub, to, MAX_AMOUNT, NoSignature(), [], [], now, Pending));
            var W := Ledger(map[], map[], map[], {}, None);
            && Verify(W, scheme, tx, None, now) == None
            && Balance(W, tx.from) == 0 && Cost(tx) == 9_009_000_000_000_000
  {
    var tx := SignedTx(scheme, kp, Transaction(
      ZeroHash(), 1, nonce, kp.pub, to, MAX_AMOUNT, NoSignature(), [], [], now, Pending));
    assert TxSignatureValid(scheme, tx);
  }

  // ---- Where money is created: two inputs --------------------------------------------------------

  /** A node that owns 10000 and has sent nothing. */
  function Funded(pk: PubKey): NodeState {
    NodeState(Ledger(map[pk := 10_000], map[], map[], {}, None), map[])
  }

  lemma FundedSupply(pk: PubKey)
    ensures Supply(Funded(pk).ledger) == 10_000
  {
    var b: map<PubKey, nat> := map[];
    SumUpdate(b, pk, 10_000);
    assert b[pk := 10_000] == Funded(pk).ledger.bal;
  }

  /** A first transaction of 1000 is built and confirmed. */
  lemma FundedPays(scheme: Scheme, kp: KeyPair, to: PubKey, nonce: uint64, now: Time) returns (tx: Transaction)
    ensures Build(Funded(kp.pub).ledger, [], scheme, kp, to, 1000, nonce, now) == Ok(tx)
    ensures tx.from == kp.pub && tx.to == to && tx.amount == 1000 && tx.sequence == 1 && tx.parents == []
    ensures Cost(tx) == 1001 && Confirm(Funded(kp.pub), tx).1 == None
  {
    BuiltFields(Funded(kp.pub).ledger, [], scheme, kp, to, 1000, nonce, now);
    BuiltIsCovered(Funded(kp.pub), [], scheme, kp, to, 1000, nonce, now);
    tx := Build(Funded(kp.pub).ledger, [], scheme, kp, to, 1000, nonce, now).value;
  }

  /** A payment of 1000 to oneself is built, is confirmed, and leaves 11001 where there were 10000. */
  lemma SelfTransferCreatesMoney(scheme: Scheme, kp: KeyPair, nonce: uint64, now: Time)
    ensures var s := Funded(kp.pub);
            var r := Build(s.ledger, [], scheme, kp, kp.pub, 1000, nonce, now);
            && r.Ok? && Confirm(s, r.value).1 == None
            && Supply(s.ledger) == 10_000 && Supply(Confirm(s, r.value).0.ledger) == 11_001
  {
    FundedSupply(kp.pub);
    var tx := FundedPays(scheme, kp, kp.pub, nonce, now);
    ConfirmConservesIff(Funded(kp.pub), tx);
  }

  /** A payment of 1000 that is built, confirmed and comes back as gossip is credited twice. */
  lemma ReturningConfirmationCreditsTwice(scheme: Scheme, kp: KeyPair, to: PubKey, nonce: uint64, now: Time)
    requires to != kp.pub
    ensures var s := Funded(kp.pub);
            var r := Build(s.ledger, [], scheme, kp, to, 1000, nonce, now);
            && r.Ok? && Confirm(s, r.value).1 == None
            && Balance(Confirm(s, r.value).0.ledger, to) == 1000
            && var back := Apply(Confirm(s, r.value).0.ledger, r.value.(status := Confirmed));
               back.1 == None && Balance(back.0, to) == 2000
  {
    FundedSupply(kp.pub);
    var tx := FundedPays(scheme, kp, to, nonce, now);
    ConfirmConserves(Funded(kp.pub), tx);
    ConfirmMarksNothing(Funded(kp.pub), tx);
  }

  lemma ConfirmMarksNothing(s: NodeState, tx: Transaction)
    ensures Confirm(s, tx).0.ledger.applied == s.ledger.applied
  {
  }
}
