/**
 Confirmations and gossiped credits at once. The source takes no lock around what one of them reads and
 writes, so here each access to the store is one step and every interleaving is covered.
 */
module Races {
  import opened Bytes
  import opened Types
  import opened Amounts
  import opened Insertion
  import opened Ledgers
  import opened Sums
  import opened Transfers

  /**
   How far a confirmation has come, with what it has read so far; then the same for the crediting of a
   transaction learnt from gossip.
   */
  datatype Task =
    | Started(tx: Transaction)
    | ReadSender(tx: Transaction, bal: Amount)
    | Checked(tx: Transaction, senderBal: Amount, receiverBal: Amount)
    | Linked(tx: Transaction, senderBal: Amount, receiverBal: Amount)
    | Written(bond: Amount)
    | ReadPool(bond: Amount, pool: Amount)
    | Received(tx: Transaction)
    | Unmarked(tx: Transaction)
    | Raised(tx: Transaction, newBal: Amount)
    | Saved(tx: Transaction)
    | Ended(r: Option<Error>)

  function StepTask(s: NodeState, t: Task): (NodeState, Task) {
    match t
    case Started(tx) => (s, ReadSender(tx, Balance(s.ledger, tx.from)))
    case ReadSender(tx, bal) => (s, Check(s.ledger, tx, bal))
    case Checked(tx, senderBal, receiverBal) =>
      var (edges, ok) := Advance(s.edges, tx.hash, tx.parents);
      (s.(edges := edges), if ok then Linked(tx, senderBal, receiverBal) else Ended(Some(DagCycle)))
    case Linked(tx, senderBal, receiverBal) =>
      (s.(ledger := Recorded(s.ledger, tx.(status := Confirmed), senderBal, receiverBal)),
       Written(BondAmount(tx.amount)))
    case Written(bond) => (s, ReadPool(bond, Pool(s.ledger)))
    case ReadPool(bond, pool) =>
      (match SafeAdd(pool, bond)
       case Ok(p) => s.(ledger := s.ledger.(pool := Some(p)))
       case Err(_) => s, Ended(None))
    case Received(tx) => (s, if tx.hash in s.ledger.applied then Ended(None) else Unmarked(tx))
    case Unmarked(tx) =>
      (s, match SafeAdd(Balance(s.ledger, tx.to), tx.amount)
          case Ok(n) => Raised(tx, n)
          case Err(e) => Ended(Some(e)))
    case Raised(tx, n) => (s.(ledger := s.ledger.(bal := s.ledger.bal[tx.to := n])), Saved(tx))
    case Saved(tx) => (s.(ledger := s.ledger.(applied := s.ledger.applied + {tx.hash})), Ended(None))
    case Ended(_) => (s, t)
  }

  /** The checks, once the sender's balance is read; reads the receiver's. */
  function Check(L: Ledger, tx: Transaction, bal: Amount): Task {
    match SafeAdd(tx.amount, BondAmount(tx.amount))
    case Err(e) => Ended(Some(e))
    case Ok(total) =>
      match SafeSub(bal, total)
      case Err(e) => Ended(Some(e))
      case Ok(senderBal) =>
        match SafeAdd(Balance(L, tx.to), tx.amount)
        case Err(e) => Ended(Some(e))
        case Ok(receiverBal) => Checked(tx, senderBal, receiverBal)
  }

  /** The state and everything under way. */
  datatype World = World(node: NodeState, tasks: seq<Task>)

  function StepWorld(w: World, i: nat): World {
    if i < |w.tasks| then
      var (s, t) := StepTask(w.node, w.tasks[i]);
      World(s, w.tasks[i := t])
    else
      w
  }

  /** A schedule names the task that makes each step. */
  function RunWorld(w: World, schedule: seq<nat>): World
    decreases |schedule|
  {
    if schedule == [] then w else RunWorld(StepWorld(w, schedule[0]), schedule[1..])
  }

  // ---- Undisturbed, the steps are the one operation --------------------------------------------------

  function StepTimes(s: NodeState, t: Task, n: nat): (NodeState, Task)
    decreases n
  {
    if n == 0 then (s, t) else
      var (s', t') := StepTask(s, t);
      StepTimes(s', t', n - 1)
  }

  /** A confirmation whose six steps nothing comes between does what `Confirm` does. */
  lemma UndisturbedIsConfirm(s: NodeState, tx: Transaction)
    ensures StepTimes(s, Started(tx), 6) == (Confirm(s, tx).0, Ended(Confirm(s, tx).1))
  {
  }

  lemma {:induction false} EndedStays(s: NodeState, r: Option<Error>, n: nat)
    ensures StepTimes(s, Ended(r), n) == (s, Ended(r))
    decreases n
  {
    if n > 0 {
      EndedStays(s, r, n - 1);
    }
  }

  /** The last two steps of a credit. */
  lemma CreditWrites(s: NodeState, c: Transaction, n: Amount)
    ensures var (s', x) := StepTimes(s, Raised(c, n), 2);
            && x == Ended(None)
            && s' == s.(ledger := s.ledger.(bal := s.ledger.bal[c.to := n], applied := s.ledger.applied + {c.hash}))
            && Supply(s'.ledger) == Supply(s.ledger) - Balance(s.ledger, c.to) + n
  {
    SumUpdate(s.ledger.bal, c.to, n);
  }

  /** A credit that is due: not marked, and within the maximum. */
  predicate Due(L: Ledger, tx: Transaction) {
    tx.hash !in L.applied && Balance(L, tx.to) + tx.amount <= MAX_AMOUNT
  }

  /** The first two steps of a credit that is due. */
  lemma CreditReads(s: NodeState, c: Transaction)
    requires Due(s.ledger, c)
    ensures StepTimes(s, Received(c), 2) == (s, Raised(c, Balance(s.ledger, c.to) + c.amount))
  {
    var n := Balance(s.ledger, c.to) + c.amount;
    assert StepTask(s, Received(c)) == (s, Unmarked(c)) && StepTask(s, Unmarked(c)) == (s, Raised(c, n));
    assert StepTimes(s, Unmarked(c), 1) == StepTimes(s, Raised(c, n), 0);
  }

  lemma {:induction false} StepsJoin(s: NodeState, t: Task, m: nat, n: nat)
    ensures var (s', t') := StepTimes(s, t, m);
            StepTimes(s, t, m + n) == StepTimes(s', t', n)
    decreases m
  {
    if m > 0 {
      var (s', t') := StepTask(s, t);
      StepsJoin(s', t', m - 1, n);
    }
  }

  /** A credit whose four steps nothing comes between does what `Apply` does; further steps change nothing. */
  lemma UndisturbedIsApply(s: NodeState, tx: Transaction, n: nat)
    requires n >= 4
    ensures var (L, r) := Apply(s.ledger, tx);
            StepTimes(s, Received(tx), n) == (s.(ledger := L), Ended(r))
  {
    StepsJoin(s, Received(tx), 2, n - 2);
    if Due(s.ledger, tx) {
      var bal := Balance(s.ledger, tx.to) + tx.amount;
      CreditReads(s, tx);
      StepsJoin(s, Raised(tx, bal), 2, n - 4);
      CreditWrites(s, tx, bal);
      EndedStays(StepTimes(s, Raised(tx, bal), 2).0, None, n - 4);
    } else {
      RefusedEnds(s, tx);
      EndedStays(s, Apply(s.ledger, tx).1, n - 2);
    }
  }

  lemma RefusedEnds(s: NodeState, tx: Transaction)
    requires !Due(s.ledger, tx)
    ensures StepTimes(s, Received(tx), 2) == (s, Ended(Apply(s.ledger, tx).1)) && Apply(s.ledger, tx).0 == s.ledger
  {
    var (s1, t1) := StepTask(s, Received(tx));
    var (s2, t2) := StepTask(s1, t1);
    assert StepTimes(s1, t1, 1) == StepTimes(s2, t2, 0);
  }

  // ---- What an interleaving does to the supply ------------------------------------------------------

  /** Money a task has in hand: a bond not yet put into the pool, or a credit not yet made. */
  function Underway(t: Task): nat {
    match t
    case Written(bond) => bond
    case ReadPool(bond, _) => bond
    case Received(tx) => tx.amount
    case Unmarked(tx) => tx.amount
    case Raised(tx, _) => tx.amount
    case _ => 0
  }

  function AllUnderway(tasks: seq<Task>): nat {
    if tasks == [] then 0 else AllUnderway(tasks[..|tasks| - 1]) + Underway(tasks[|tasks| - 1])
  }

  lemma {:induction false} UnderwayUpdate(tasks: seq<Task>, i: nat, t: Task)
    requires i < |tasks|
    ensures AllUnderway(tasks[i := t]) == AllUnderway(tasks) - Underway(tasks[i]) + Underway(t)
    decreases |tasks|
  {
    var n := |tasks| - 1;
    if i < n {
      UnderwayUpdate(tasks[..n], i, t);
      assert tasks[i := t][..n] == tasks[..n][i := t];
    } else {
      assert tasks[i := t][..n] == tasks[..n];
    }
  }

  /** The supply with everything under way. */
  ghost function Total(w: World): nat {
    Supply(w.node.ledger) + AllUnderway(w.tasks)
  }

  /** What a step adds to the total: how far what it read has moved since, or a credit that is not made. */
  function Drift(L: Ledger, t: Task): int {
    match t
    case Linked(tx, senderBal, receiverBal) =>
      if tx.from == tx.to then receiverBal + BondAmount(tx.amount) - Balance(L, tx.from)
      else (senderBal + Cost(tx) - Balance(L, tx.from)) + (receiverBal - tx.amount - Balance(L, tx.to))
    case ReadPool(bond, pool) => if pool + bond <= MAX_AMOUNT then pool - Pool(L) else 0 - bond as int
    case Received(tx) => if tx.hash in L.applied then 0 - tx.amount as int else 0
    case Unmarked(tx) => if Balance(L, tx.to) + tx.amount <= MAX_AMOUNT then 0 else 0 - tx.amount as int
    case Raised(tx, n) => n - tx.amount - Balance(L, tx.to)
    case _ => 0
  }

  lemma StepTaskDrifts(s: NodeState, t: Task)
    ensures var (s', t') := StepTask(s, t);
            Supply(s'.ledger) + Underway(t') == Supply(s.ledger) + Underway(t) + Drift(s.ledger, t)
  {
    if t.Linked? {
      RecordedSum(s.ledger, t.tx.(status := Confirmed), t.senderBal, t.receiverBal);
    } else if t.Raised? {
      SumUpdate(s.ledger.bal, t.tx.to, t.newBal);
    }
  }

  lemma StepDrifts(w: World, i: nat)
    ensures Total(StepWorld(w, i)) == Total(w) + if i < |w.tasks| then Drift(w.node.ledger, w.tasks[i]) else 0
  {
    if i < |w.tasks| {
      StepTaskDrifts(w.node, w.tasks[i]);
      UnderwayUpdate(w.tasks, i, StepTask(w.node, w.tasks[i]).1);
    }
  }

  /** The sum of the drifts of a run. */
  function Drifts(w: World, schedule: seq<nat>): int
    decreases |schedule|
  {
    if schedule == [] then 0 else
      var i := schedule[0];
      (if i < |w.tasks| then Drift(w.node.ledger, w.tasks[i]) else 0) + Drifts(StepWorld(w, i), schedule[1..])
  }

  /** Over every interleaving, money is created or lost by exactly what the writers' reads were out of date by. */
  lemma {:induction false} RunDrifts(w: World, schedule: seq<nat>)
    ensures Total(RunWorld(w, schedule)) == Total(w) + Drifts(w, schedule)
    decreases |schedule|
  {
    if schedule != [] {
      StepDrifts(w, schedule[0]);
      RunDrifts(StepWorld(w, schedule[0]), schedule[1..]);
    }
  }

  // ---- Payers apart: money is never created ----------------------------------------------------------

  /** A confirmation that has still to write the accounts of its transfer. */
  predicate Pays(t: Task) {
    t.Started? || t.ReadSender? || t.Checked? || t.Linked?
  }

  /** The accounts a task has still to write. */
  function Accounts(t: Task): set<PubKey> {
    if Pays(t) then {t.tx.from, t.tx.to}
    else if t.Received? || t.Unmarked? || t.Raised? then {t.tx.to}
    else {}
  }

  /** Nobody pays out of an account that another task has still to write. Receivers may be shared. */
  ghost predicate PayersApart(tasks: seq<Task>) {
    forall i, j :: 0 <= i < |tasks| && 0 <= j < |tasks| && i != j && Pays(tasks[i]) ==>
      tasks[i].tx.from !in Accounts(tasks[j])
  }

  function At(M: map<PubKey, nat>, pk: PubKey): nat {
    if pk in M then M[pk] else 0
  }

  /** Reads of a payer are exact; what was read of a receiver or of the pool is within its bound. */
  predicate WithinBounds(L: Ledger, M: map<PubKey, nat>, P: nat, t: Task) {
    && (Pays(t) ==> t.tx.from != t.tx.to)
    && (t.ReadSender? ==> t.bal == Balance(L, t.tx.from))
    && (t.Checked? || t.Linked? ==>
          t.senderBal + Cost(t.tx) == Balance(L, t.tx.from) && t.receiverBal <= At(M, t.tx.to) + t.tx.amount)
    && (t.Raised? ==> t.newBal <= At(M, t.tx.to) + t.tx.amount)
    && (t.ReadPool? ==> t.pool <= P)
  }

  /** `M` and `P` bound the balances and the pool: what they would be had every write been made on current values. */
  ghost predicate BoundedBy(L: Ledger, M: map<PubKey, nat>, P: nat) {
    && M.Keys == L.bal.Keys && Pool(L) <= P
    && forall pk :: pk in M ==> L.bal[pk] <= M[pk]
  }

  ghost predicate Bounded(w: World, M: map<PubKey, nat>, P: nat, total: nat) {
    && BoundedBy(w.node.ledger, M, P) && Sum(M) + P + AllUnderway(w.tasks) <= total
    && PayersApart(w.tasks)
    && forall i :: 0 <= i < |w.tasks| ==> WithinBounds(w.node.ledger, M, P, w.tasks[i])
  }

  lemma BoundedTotal(w: World, M: map<PubKey, nat>, P: nat, total: nat)
    requires Bounded(w, M, P, total)
    ensures Total(w) <= total
  {
    var b: map<PubKey, nat> := w.node.ledger.bal;
    SumMonotone(b, M);
  }

  /** The bounds after a step of `t`. */
  function BalancesAfter(L: Ledger, M: map<PubKey, nat>, t: Task): map<PubKey, nat>
    requires t.Linked? ==> At(M, t.tx.from) >= Cost(t.tx)
  {
    match t
    case Linked(tx, _, _) =>
      var paid := M[tx.from := At(M, tx.from) - Cost(tx)];
      paid[tx.to := At(paid, tx.to) + tx.amount]
    case Raised(tx, _) => M[tx.to := At(M, tx.to) + tx.amount]
    case _ => M
  }

  function PoolAfter(P: nat, t: Task): nat {
    if t.ReadPool? then P + t.bond else P
  }

  lemma PaidFromBound(L: Ledger, M: map<PubKey, nat>, P: nat, t: Task)
    requires BoundedBy(L, M, P) && WithinBounds(L, M, P, t)
    ensures t.Linked? ==> At(M, t.tx.from) >= Cost(t.tx)
  {
  }

  /** A confirmation that writes keeps within the bounds. */
  lemma LinkedBounded(L: Ledger, M: map<PubKey, nat>, P: nat, t: Task)
    requires t.Linked? && BoundedBy(L, M, P) && WithinBounds(L, M, P, t) && At(M, t.tx.from) >= Cost(t.tx)
    ensures BoundedBy(Recorded(L, t.tx.(status := Confirmed), t.senderBal, t.receiverBal),
                      BalancesAfter(L, M, t), P)
  {
  }

  /** What passes the checks was read within the bounds. */
  lemma CheckedBounded(L: Ledger, M: map<PubKey, nat>, P: nat, t: Task)
    requires t.ReadSender? && BoundedBy(L, M, P) && WithinBounds(L, M, P, t)
    ensures var t' := Check(L, t.tx, t.bal);
            WithinBounds(L, M, P, t') && (t'.Checked? || t'.Ended?) && (t'.Checked? ==> t'.tx == t.tx)
  {
  }

  /** The bounds hold again after the step, for the ledger and for the task itself. */
  lemma StepTaskBounded(s: NodeState, M: map<PubKey, nat>, P: nat, t: Task)
    requires BoundedBy(s.ledger, M, P) && WithinBounds(s.ledger, M, P, t)
    requires t.Linked? ==> At(M, t.tx.from) >= Cost(t.tx)
    ensures var (s', t') := StepTask(s, t);
            && BoundedBy(s'.ledger, BalancesAfter(s.ledger, M, t), PoolAfter(P, t))
            && WithinBounds(s'.ledger, BalancesAfter(s.ledger, M, t), PoolAfter(P, t), t')
            && Accounts(t') <= Accounts(t) && (Pays(t') ==> Pays(t) && t'.tx == t.tx)
  {
    if t.Linked? {
      LinkedBounded(s.ledger, M, P, t);
    } else if t.ReadSender? {
      CheckedBounded(s.ledger, M, P, t);
    }
  }

  /** And for every other task. */
  lemma OtherStaysBounded(s: NodeState, M: map<PubKey, nat>, P: nat, t: Task, other: Task)
    requires BoundedBy(s.ledger, M, P) && WithinBounds(s.ledger, M, P, t) && WithinBounds(s.ledger, M, P, other)
    requires t.Linked? ==> At(M, t.tx.from) >= Cost(t.tx)
    requires Pays(t) ==> t.tx.from !in Accounts(other)
    requires Pays(other) ==> other.tx.from !in Accounts(t)
    ensures WithinBounds(StepTask(s, t).0.ledger, BalancesAfter(s.ledger, M, t), PoolAfter(P, t), other)
  {
  }

  /** What the bounds gain is what the task no longer has in hand. */
  lemma StepTaskPays(s: NodeState, M: map<PubKey, nat>, P: nat, t: Task)
    requires WithinBounds(s.ledger, M, P, t)
    requires t.Linked? ==> At(M, t.tx.from) >= Cost(t.tx)
    ensures Sum(BalancesAfter(s.ledger, M, t)) + PoolAfter(P, t) + Underway(StepTask(s, t).1)
         <= Sum(M) + P + Underway(t)
  {
    if t.Linked? {
      LinkedPays(s.ledger, M, t);
    } else if t.Raised? {
      SumUpdate(M, t.tx.to, At(M, t.tx.to) + t.tx.amount);
    } else if t.ReadSender? {
      assert Underway(Check(s.ledger, t.tx, t.bal)) == 0;
    }
  }

  lemma LinkedPays(L: Ledger, M: map<PubKey, nat>, t: Task)
    requires t.Linked? && At(M, t.tx.from) >= Cost(t.tx)
    ensures Sum(BalancesAfter(L, M, t)) + BondAmount(t.tx.amount) == Sum(M)
  {
    var paid := M[t.tx.from := At(M, t.tx.from) - Cost(t.tx)];
    SumUpdate(M, t.tx.from, At(M, t.tx.from) - Cost(t.tx));
    SumUpdate(paid, t.tx.to, At(paid, t.tx.to) + t.tx.amount);
  }

  lemma StepBounded(w: World, i: nat, M: map<PubKey, nat>, P: nat, total: nat)
    returns (M': map<PubKey, nat>, P': nat)
    requires Bounded(w, M, P, total) && i < |w.tasks|
    ensures Bounded(StepWorld(w, i), M', P', total)
  {
    var t, w' := w.tasks[i], StepWorld(w, i);
    PaidFromBound(w.node.ledger, M, P, t);
    M', P' := BalancesAfter(w.node.ledger, M, t), PoolAfter(P, t);
    StepTaskBounded(w.node, M, P, t);
    StepTaskPays(w.node, M, P, t);
    UnderwayUpdate(w.tasks, i, StepTask(w.node, t).1);
    forall j | 0 <= j < |w'.tasks| ensures WithinBounds(w'.node.ledger, M', P', w'.tasks[j]) {
      if j != i {
        OtherStaysBounded(w.node, M, P, t, w.tasks[j]);
      }
    }
  }

  lemma {:induction false} RunStaysBounded(w: World, schedule: seq<nat>, M: map<PubKey, nat>, P: nat, total: nat)
    requires Bounded(w, M, P, total)
    ensures Total(RunWorld(w, schedule)) <= total
    decreases |schedule|
  {
    if schedule == [] {
      BoundedTotal(w, M, P, total);
    } else if schedule[0] < |w.tasks| {
      var M', P' := StepBounded(w, schedule[0], M, P, total);
      RunStaysBounded(StepWorld(w, schedule[0]), schedule[1..], M', P', total);
    } else {
      RunStaysBounded(w, schedule[1..], M, P, total);
    }
  }

  /** Confirmations of transfers to others, and credits, none of which has begun. */
  ghost predicate AtStart(tasks: seq<Task>) {
    forall i :: 0 <= i < |tasks| ==> tasks[i].Received? || (tasks[i].Started? && tasks[i].tx.from != tasks[i].tx.to)
  }

  /**
   If nobody pays out of an account that another one pays out of or credits, no schedule creates money,
   whatever the balances and the graph. Any number may pay into one account.
   */
  lemma OverlappingNeverCreates(w: World, schedule: seq<nat>)
    requires AtStart(w.tasks) && PayersApart(w.tasks)
    ensures Total(RunWorld(w, schedule)) <= Total(w)
  {
    RunStaysBounded(w, schedule, w.node.ledger.bal, Pool(w.node.ledger), Total(w));
  }
}
