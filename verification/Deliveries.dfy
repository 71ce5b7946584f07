/**
 Gossiped confirmations that arrive at once, each credited in four separate accesses to the store. When
 the outcome is that of some order one after another, and exactly when that is certain.
 */
module Deliveries {
  import opened Bytes
  import opened Types
  import opened Amounts
  import opened Ledgers
  import opened Transfers
  import opened Replicas
  import opened Races
  import opened Overlaps

  predicate IsDelivery(t: Task) {
    t.Received? || t.Unmarked? || t.Raised? || t.Saved? || t.Ended?
  }

  /** Begun and not done. */
  predicate Active(t: Task) {
    t.Unmarked? || t.Raised? || t.Saved?
  }

  predicate Differ(tx: Transaction, other: Transaction) {
    tx.hash != other.hash && tx.to != other.to
  }

  /** Deliveries that overlap share neither hash nor receiver. */
  ghost predicate Apart(tasks: seq<Task>) {
    forall i, j :: 0 <= i < |tasks| && 0 <= j < |tasks| && i != j && Active(tasks[i]) && Active(tasks[j]) ==>
      Differ(tasks[i].tx, tasks[j].tx)
  }

  ghost predicate ApartThroughout(w: World, schedule: seq<nat>)
    decreases |schedule|
  {
    Apart(w.tasks) && (schedule != [] ==> ApartThroughout(StepWorld(w, schedule[0]), schedule[1..]))
  }

  /** Nothing is halfway. */
  ghost predicate Quiet(tasks: seq<Task>) {
    forall i :: 0 <= i < |tasks| ==> !Active(tasks[i])
  }

  /** The transactions in the order in which their crediting began. */
  function Begun(w: World, schedule: seq<nat>): seq<Transaction>
    decreases |schedule|
  {
    if schedule == [] then [] else
      var i := schedule[0];
      (if i < |w.tasks| && w.tasks[i].Received? then [w.tasks[i].tx] else [])
      + Begun(StepWorld(w, i), schedule[1..])
  }

  // ---- Finishing what has begun ----------------------------------------------------------------------

  /** What a delivery has still to write: a balance, the mark. */
  datatype Effect = Effect(newBal: Option<Amount>, mark: bool)

  function EffectOf(L: Ledger, t: Task): Effect {
    match t
    case Unmarked(tx) =>
      if tx.hash !in L.applied && Balance(L, tx.to) + tx.amount <= MAX_AMOUNT
      then Effect(Some(Balance(L, tx.to) + tx.amount), true)
      else Effect(None, false)
    case Raised(_, n) => Effect(Some(n), true)
    case Saved(_) => Effect(None, true)
    case _ => Effect(None, false)
  }

  function WithEffect(L: Ledger, tx: Transaction, e: Effect): Ledger {
    L.(bal := if e.newBal.Some? then L.bal[tx.to := e.newBal.value] else L.bal,
       applied := if e.mark then L.applied + {tx.hash} else L.applied)
  }

  /** The ledger once a delivery has made its remaining steps. */
  function Finish(L: Ledger, t: Task): Ledger {
    if Active(t) then WithEffect(L, t.tx, EffectOf(L, t)) else L
  }

  lemma FinishIsApply(L: Ledger, tx: Transaction)
    ensures Finish(L, Unmarked(tx)) == Apply(L, tx).0
  {
  }

  function FinishAll(L: Ledger, tasks: seq<Task>): Ledger {
    if tasks == [] then L else Finish(FinishAll(L, tasks[..|tasks| - 1]), tasks[|tasks| - 1])
  }

  predicate ApartFrom(t: Task, other: Task) {
    Active(t) && Active(other) ==> Differ(t.tx, other.tx)
  }

  lemma WritesCommute(L: Ledger, tx: Transaction, e: Effect, other: Transaction, f: Effect)
    requires Differ(tx, other)
    ensures WithEffect(WithEffect(L, tx, e), other, f) == WithEffect(WithEffect(L, other, f), tx, e)
  {
    var a, b := WithEffect(WithEffect(L, tx, e), other, f), WithEffect(WithEffect(L, other, f), tx, e);
    assert a.bal.Keys == b.bal.Keys && forall k :: k in a.bal ==> a.bal[k] == b.bal[k];
    assert a.applied == b.applied;
  }

  lemma EffectStays(L: Ledger, t: Task, other: Transaction, e: Effect)
    requires Active(t) && Differ(t.tx, other)
    ensures EffectOf(WithEffect(L, other, e), t) == EffectOf(L, t)
  {
  }

  lemma FinishCommutes(L: Ledger, t: Task, other: Task)
    requires ApartFrom(t, other)
    ensures Finish(Finish(L, t), other) == Finish(Finish(L, other), t)
  {
    if Active(t) && Active(other) {
      EffectStays(L, t, other.tx, EffectOf(L, other));
      EffectStays(L, other, t.tx, EffectOf(L, t));
      WritesCommute(L, t.tx, EffectOf(L, t), other.tx, EffectOf(L, other));
    }
  }

  lemma {:induction false} FinishThrough(L: Ledger, tasks: seq<Task>, t: Task)
    requires forall j :: 0 <= j < |tasks| ==> ApartFrom(t, tasks[j])
    ensures FinishAll(Finish(L, t), tasks) == Finish(FinishAll(L, tasks), t)
    decreases |tasks|
  {
    if tasks != [] {
      var init, last := tasks[..|tasks| - 1], tasks[|tasks| - 1];
      FinishThrough(L, init, t);
      FinishCommutes(FinishAll(L, init), t, last);
    }
  }

  /** One delivery can be finished before all others. */
  lemma {:induction false} FinishFirst(L: Ledger, tasks: seq<Task>, i: nat)
    requires i < |tasks| && forall j :: 0 <= j < |tasks| && j != i ==> ApartFrom(tasks[i], tasks[j])
    ensures FinishAll(L, tasks) == FinishAll(Finish(L, tasks[i]), tasks[i := Ended(None)])
    decreases |tasks|
  {
    var n := |tasks| - 1;
    var init := tasks[..n];
    if i < n {
      FinishFirst(L, init, i);
      assert tasks[i := Ended(None)][..n] == init[i := Ended(None)];
    } else {
      assert tasks[i := Ended(None)][..n] == init;
      FinishThrough(L, init, tasks[i]);
    }
  }

  lemma {:induction false} FinishGrows(L: Ledger, tasks: seq<Task>)
    ensures L.applied <= FinishAll(L, tasks).applied
    decreases |tasks|
  {
    if tasks != [] {
      FinishGrows(L, tasks[..|tasks| - 1]);
    }
  }

  lemma {:induction false} FinishQuiet(L: Ledger, tasks: seq<Task>)
    requires Quiet(tasks)
    ensures FinishAll(L, tasks) == L
    decreases |tasks|
  {
    if tasks != [] {
      FinishQuiet(L, tasks[..|tasks| - 1]);
    }
  }

  // ---- Overlapping deliveries that stay apart ----------------------------------------------------------

  /** Only deliveries, and none that found its hash unmarked has been overtaken. */
  ghost predicate NotOvertaken(w: World) {
    forall i :: 0 <= i < |w.tasks| ==>
      IsDelivery(w.tasks[i]) && (w.tasks[i].Unmarked? ==> w.tasks[i].tx.hash !in w.node.ledger.applied)
  }

  lemma StepNotOvertaken(w: World, i: nat)
    requires NotOvertaken(w) && Apart(w.tasks) && i < |w.tasks|
    ensures NotOvertaken(StepWorld(w, i))
  {
    var w' := StepWorld(w, i);
    forall j | 0 <= j < |w'.tasks|
      ensures IsDelivery(w'.tasks[j]) && (w'.tasks[j].Unmarked? ==> w'.tasks[j].tx.hash !in w'.node.ledger.applied)
    {
      if j != i && w.tasks[i].Saved? && w.tasks[j].Unmarked? {
        assert Differ(w.tasks[i].tx, w.tasks[j].tx);
      }
    }
  }

  /** A step of a delivery that has begun is part of finishing it. */
  lemma StepFinishes(s: NodeState, t: Task)
    requires Active(t) && (t.Unmarked? ==> t.tx.hash !in s.ledger.applied)
    ensures var (s', t') := StepTask(s, t);
            Finish(s'.ledger, t') == Finish(s.ledger, t) && (Active(t') ==> t'.tx == t.tx)
  {
  }

  lemma ActiveStep(w: World, i: nat)
    requires NotOvertaken(w) && Apart(w.tasks) && i < |w.tasks| && Active(w.tasks[i])
    ensures var w' := StepWorld(w, i);
            FinishAll(w'.node.ledger, w'.tasks) == FinishAll(w.node.ledger, w.tasks) && Apart(w'.tasks)
  {
    var w' := StepWorld(w, i);
    StepFinishes(w.node, w.tasks[i]);
    FinishFirst(w.node.ledger, w.tasks, i);
    FinishFirst(w'.node.ledger, w'.tasks, i);
    assert w'.tasks[i := Ended(None)] == w.tasks[i := Ended(None)];
  }

  /** The step that looks up the hash is where the delivery takes effect. */
  lemma BeginStep(w: World, i: nat)
    requires NotOvertaken(w) && i < |w.tasks| && w.tasks[i].Received? && Apart(StepWorld(w, i).tasks)
    ensures var w' := StepWorld(w, i);
            FinishAll(w'.node.ledger, w'.tasks) == Apply(FinishAll(w.node.ledger, w.tasks), w.tasks[i].tx).0
  {
    var w', tx, L := StepWorld(w, i), w.tasks[i].tx, w.node.ledger;
    FinishFirst(L, w.tasks, i);
    FinishFirst(L, w'.tasks, i);
    var rest := w.tasks[i := Ended(None)];
    assert w'.tasks[i := Ended(None)] == rest;
    if tx.hash in L.applied {
      FinishGrows(L, w.tasks);
    } else {
      forall j | 0 <= j < |rest| ensures ApartFrom(Unmarked(tx), rest[j]) {
        assert j != i ==> rest[j] == w'.tasks[j];
      }
      FinishThrough(L, rest, Unmarked(tx));
      FinishIsApply(L, tx);
      FinishIsApply(FinishAll(L, rest), tx);
    }
  }

  /** One step, whichever it is. */
  lemma StepIsSerial(w: World, i: nat)
    requires NotOvertaken(w) && Apart(w.tasks) && Apart(StepWorld(w, i).tasks)
    ensures var w' := StepWorld(w, i);
            var L, L' := FinishAll(w.node.ledger, w.tasks), FinishAll(w'.node.ledger, w'.tasks);
            && NotOvertaken(w')
            && L' == if i < |w.tasks| && w.tasks[i].Received? then Apply(L, w.tasks[i].tx).0 else L
  {
    if i < |w.tasks| {
      StepNotOvertaken(w, i);
      if w.tasks[i].Received? {
        BeginStep(w, i);
      } else if Active(w.tasks[i]) {
        ActiveStep(w, i);
      } else {
        assert StepWorld(w, i).tasks == w.tasks;
      }
    }
  }

  /** However deliveries overlap, as long as they stay apart the outcome is that of applying them one by one. */
  lemma {:induction false} ApartIsSerial(w: World, schedule: seq<nat>)
    requires NotOvertaken(w) && ApartThroughout(w, schedule)
    ensures var L := FinishAll(w.node.ledger, w.tasks);
            var end := RunWorld(w, schedule);
            FinishAll(end.node.ledger, end.tasks) == ApplyAll(L, Begun(w, schedule))
    decreases |schedule|
  {
    if schedule != [] {
      var i := schedule[0];
      var rest := Begun(StepWorld(w, i), schedule[1..]);
      StepIsSerial(w, i);
      ApartIsSerial(StepWorld(w, i), schedule[1..]);
      if i < |w.tasks| && w.tasks[i].Received? {
        assert ([w.tasks[i].tx] + rest)[1..] == rest;
      } else {
        assert [] + rest == rest;
      }
    }
  }

  /** No delivery has begun. */
  ghost predicate AllReceived(tasks: seq<Task>) {
    forall i :: 0 <= i < |tasks| ==> tasks[i].Received?
  }

  /** When nothing is halfway, the ledger is what applying the deliveries begun so far, one by one, gives. */
  ghost predicate Serial(w: World, schedule: seq<nat>) {
    var end := RunWorld(w, schedule);
    Quiet(end.tasks) ==> end.node.ledger == ApplyAll(w.node.ledger, Begun(w, schedule))
  }

  lemma ApartSerial(w: World, schedule: seq<nat>)
    requires AllReceived(w.tasks) && ApartThroughout(w, schedule)
    ensures Serial(w, schedule)
  {
    ApartIsSerial(w, schedule);
    FinishQuiet(w.node.ledger, w.tasks);
    var end := RunWorld(w, schedule);
    if Quiet(end.tasks) {
      FinishQuiet(end.node.ledger, end.tasks);
    }
  }

  ghost predicate Among(w: World, txs: seq<Transaction>) {
    forall i :: 0 <= i < |w.tasks| && w.tasks[i].Received? ==> w.tasks[i].tx in txs
  }

  lemma {:induction false} BegunAmong(w: World, schedule: seq<nat>, txs: seq<Transaction>)
    requires Among(w, txs)
    ensures forall tx :: tx in Begun(w, schedule) ==> tx in txs
    decreases |schedule|
  {
    if schedule != [] {
      ReceivedStays(w, schedule[0], txs);
      BegunAmong(StepWorld(w, schedule[0]), schedule[1..], txs);
    }
  }

  lemma ReceivedStays(w: World, i: nat, txs: seq<Transaction>)
    requires Among(w, txs)
    ensures Among(StepWorld(w, i), txs)
  {
    if i < |w.tasks| {
      NeverReceivedAgain(w.node, w.tasks[i]);
    }
  }

  lemma NeverReceivedAgain(s: NodeState, t: Task)
    ensures !StepTask(s, t).1.Received?
  {
  }

  /**
   So overlapping deliveries that stay apart credit exactly once: every balance is the initial one plus
   the amounts of the distinct hashes that were applied.
   */
  lemma ApartExactlyOnce(info: map<Hash, Credit>, w: World, txs: seq<Transaction>, schedule: seq<nat>)
    requires AllReceived(w.tasks) && Among(w, txs) && Agree(info, txs) && ApartThroughout(w, schedule)
    requires Quiet(RunWorld(w, schedule).tasks)
    ensures var L, M := w.node.ledger, RunWorld(w, schedule).node.ledger;
            && L.applied <= M.applied <= L.applied + Hashes(txs)
            && (forall pk :: Balance(M, pk) == Balance(L, pk) + Owed(info, M.applied - L.applied, pk))
  {
    var begun := Begun(w, schedule);
    ApartSerial(w, schedule);
    BegunAmong(w, schedule, txs);
    ExactlyOnce(info, w.node.ledger, begun);
    assert Hashes(begun) <= Hashes(txs);
  }

  // ---- Two deliveries that do not stay apart ------------------------------------------------------------

  /** Both find the hash unmarked; then the first does the rest, then the second. */
  function BothLook(): seq<bool> {
    [true, false] + (Firsts(3) + (Seconds(3) + []))
  }

  /** Both look, the first reads the balance, the second does the rest, then the first. */
  function ReadBetween(): seq<bool> {
    [true, false] + (Firsts(1) + (Seconds(3) + (Firsts(2) + [])))
  }

  lemma LooksFirst(s: NodeState, t: Transaction, u: Transaction, rest: seq<bool>)
    requires t.hash !in s.ledger.applied && u.hash !in s.ledger.applied
    ensures RunPair(s, Received(t), Received(u), [true, false] + rest) == RunPair(s, Unmarked(t), Unmarked(u), rest)
  {
    var turns := [true, false] + rest;
    assert turns[1..] == [false] + rest && turns[1..][1..] == rest;
    assert RunPair(s, Unmarked(t), Received(u), [false] + rest) == RunPair(s, Unmarked(t), Unmarked(u), rest);
  }

  lemma ReadsBalance(s: NodeState, t: Transaction)
    requires Balance(s.ledger, t.to) + t.amount <= MAX_AMOUNT
    ensures StepTimes(s, Unmarked(t), 1) == (s, Raised(t, Balance(s.ledger, t.to) + t.amount))
  {
  }

  /** The steps of a delivery that has looked up its hash, on the balance as it is. */
  lemma CreditsNow(s: NodeState, t: Transaction, n: nat)
    requires n >= 3 && Balance(s.ledger, t.to) + t.amount <= MAX_AMOUNT
    ensures var L := s.ledger;
            var end := L.(bal := L.bal[t.to := Balance(L, t.to) + t.amount], applied := L.applied + {t.hash});
            StepTimes(s, Unmarked(t), n) == (s.(ledger := end), Ended(None))
  {
    var bal := Balance(s.ledger, t.to) + t.amount;
    StepsJoin(s, Unmarked(t), 1, n - 1);
    ReadsBalance(s, t);
    StepsJoin(s, Raised(t, bal), 2, n - 3);
    CreditWrites(s, t, bal);
    EndedStays(StepTimes(s, Raised(t, bal), 2).0, None, n - 3);
  }

  /** If the hash is the same, both are credited, though the second would have been refused. */
  lemma SameHashCreditsTwice(s: NodeState, t: Transaction, u: Transaction, turns: seq<bool>)
    requires turns == BothLook() && t.hash !in s.ledger.applied && u.hash == t.hash
    requires Balance(s.ledger, t.to) + t.amount <= MAX_AMOUNT
    requires Balance(s.ledger, u.to) + u.amount + (if t.to == u.to then t.amount else 0) <= MAX_AMOUNT
    ensures var (s', x, y) := RunPair(s, Received(t), Received(u), turns);
            && x == y == Ended(None)
            && Balance(s'.ledger, u.to) == Balance(s.ledger, u.to) + u.amount + (if t.to == u.to then t.amount else 0)
  {
    LooksFirst(s, t, u, Firsts(3) + (Seconds(3) + []));
    CreditsNow(s, t, 3);
    var mid := StepTimes(s, Unmarked(t), 3).0;
    RunFirsts(s, Unmarked(t), Unmarked(u), 3, Seconds(3) + []);
    CreditsNow(mid, u, 3);
    RunSeconds(mid, Ended(None), Unmarked(u), 3, []);
  }

  /** If the receiver is the same, both are marked as applied and the second credit is lost. */
  lemma SameReceiverLosesCredit(s: NodeState, t: Transaction, u: Transaction, turns: seq<bool>)
    requires turns == ReadBetween() && t.hash !in s.ledger.applied && u.hash !in s.ledger.applied && u.to == t.to
    requires Balance(s.ledger, t.to) + t.amount <= MAX_AMOUNT && Balance(s.ledger, u.to) + u.amount <= MAX_AMOUNT
    ensures var (s', x, y) := RunPair(s, Received(t), Received(u), turns);
            && x == y == Ended(None) && {t.hash, u.hash} <= s'.ledger.applied
            && Balance(s'.ledger, t.to) == Balance(s.ledger, t.to) + t.amount
  {
    var n := Balance(s.ledger, t.to) + t.amount;
    LooksFirst(s, t, u, Firsts(1) + (Seconds(3) + (Firsts(2) + [])));
    ReadsBalance(s, t);
    RunFirsts(s, Unmarked(t), Unmarked(u), 1, Seconds(3) + (Firsts(2) + []));
    CreditsNow(s, u, 3);
    var mid := StepTimes(s, Unmarked(u), 3).0;
    RunSeconds(s, Raised(t, n), Unmarked(u), 3, Firsts(2) + []);
    CreditWrites(mid, t, n);
    RunFirsts(mid, Raised(t, n), Ended(None), 2, []);
  }

  // ---- Exactly when every schedule is serial -------------------------------------------------------------

  ghost predicate AlwaysSerial(w: World) {
    forall schedule :: Serial(w, schedule)
  }

  /** No two deliveries share a hash or a receiver. */
  ghost predicate AllDiffer(tasks: seq<Task>)
    requires AllReceived(tasks)
  {
    forall i, j :: 0 <= i < |tasks| && 0 <= j < |tasks| && i != j ==> Differ(tasks[i].tx, tasks[j].tx)
  }

  /** Each delivery is due, brings something, and fits together with any other one to the same receiver. */
  ghost predicate AllFit(L: Ledger, tasks: seq<Task>)
    requires AllReceived(tasks)
  {
    && (forall i :: 0 <= i < |tasks| ==> tasks[i].tx.amount > 0 && Due(L, tasks[i].tx))
    && forall i, j :: 0 <= i < |tasks| && 0 <= j < |tasks| && i != j && tasks[i].tx.to == tasks[j].tx.to ==>
         Balance(L, tasks[i].tx.to) + tasks[i].tx.amount + tasks[j].tx.amount <= MAX_AMOUNT
  }

  /** The tasks of `w` are those of `start`, further on. */
  ghost predicate Descends(w: World, start: seq<Task>)
    requires AllReceived(start)
  {
    |w.tasks| == |start| &&
    forall i :: 0 <= i < |start| ==> w.tasks[i].Ended? || (IsDelivery(w.tasks[i]) && w.tasks[i].tx == start[i].tx)
  }

  lemma DescendsStep(w: World, i: nat, start: seq<Task>)
    requires AllReceived(start) && Descends(w, start)
    ensures Descends(StepWorld(w, i), start)
  {
    if i < |w.tasks| {
      StaysDelivery(w.node, w.tasks[i]);
    }
  }

  lemma StaysDelivery(s: NodeState, t: Task)
    requires IsDelivery(t)
    ensures var t' := StepTask(s, t).1;
            t'.Ended? || (IsDelivery(t') && !t.Ended? && t'.tx == t.tx)
  {
  }

  lemma {:induction false} DifferStaysApart(w: World, schedule: seq<nat>, start: seq<Task>)
    requires AllReceived(start) && AllDiffer(start) && Descends(w, start)
    ensures ApartThroughout(w, schedule)
    decreases |schedule|
  {
    if schedule != [] {
      DescendsStep(w, schedule[0], start);
      DifferStaysApart(StepWorld(w, schedule[0]), schedule[1..], start);
    }
  }

  lemma {:induction false} BegunNone(w: World, i: nat, j: nat, turns: seq<bool>)
    requires i < |w.tasks| && j < |w.tasks| && i != j && !w.tasks[i].Received? && !w.tasks[j].Received?
    ensures Begun(w, Indices(turns, i, j)) == []
    decreases |turns|
  {
    if turns != [] {
      var k := if turns[0] then i else j;
      NeverReceivedAgain(w.node, w.tasks[k]);
      assert Indices(turns, i, j)[1..] == Indices(turns[1..], i, j);
      BegunNone(StepWorld(w, k), i, j, turns[1..]);
    }
  }

  lemma BegunBoth(w: World, i: nat, j: nat, turns: seq<bool>, rest: seq<bool>)
    requires i < |w.tasks| && j < |w.tasks| && i != j && w.tasks[i].Received? && w.tasks[j].Received?
    requires turns == [true, false] + rest
    ensures Begun(w, Indices(turns, i, j)) == [w.tasks[i].tx, w.tasks[j].tx]
  {
    var more := turns[1..];
    assert more == [false] + rest && more[1..] == rest;
    var w1 := StepWorld(w, i);
    var w2 := StepWorld(w1, j);
    assert Indices(turns, i, j)[1..] == Indices(more, i, j) && Indices(more, i, j)[1..] == Indices(rest, i, j);
    NeverReceivedAgain(w.node, w.tasks[i]);
    NeverReceivedAgain(w1.node, w1.tasks[j]);
    BegunNone(w2, i, j, rest);
    assert Begun(w1, Indices(more, i, j)) == [w.tasks[j].tx] + [];
    assert Begun(w, Indices(turns, i, j)) == [w.tasks[i].tx] + Begun(w1, Indices(more, i, j));
  }

  /** What two deliveries one after the other leave at the second receiver. */
  lemma AppliedInTurn(L: Ledger, t: Transaction, u: Transaction)
    requires Due(L, t) && Due(L, u) && (t.to == u.to ==> Balance(L, t.to) + t.amount + u.amount <= MAX_AMOUNT)
    ensures Balance(ApplyAll(L, [t, u]), u.to)
         == Balance(L, u.to) + (if t.to == u.to then t.amount else 0) + (if t.hash == u.hash then 0 else u.amount)
  {
    assert [t, u][1..] == [u] && [u][1..] == [];
    var M := Apply(L, t).0;
    assert ApplyAll(L, [t, u]) == ApplyAll(M, [u]) == ApplyAll(Apply(M, u).0, []);
  }

  /** A pair that runs to its end with another balance than in turn. */
  lemma PairNotSerial(w: World, i: nat, j: nat, turns: seq<bool>, rest: seq<bool>)
    requires i < |w.tasks| && j < |w.tasks| && i != j && AllReceived(w.tasks) && turns == [true, false] + rest
    requires var (s, x, y) := RunPair(w.node, w.tasks[i], w.tasks[j], turns);
             x == y == Ended(None) && s.ledger != ApplyAll(w.node.ledger, [w.tasks[i].tx, w.tasks[j].tx])
    ensures !AlwaysSerial(w)
  {
    PairEmbeds(w, i, j, turns);
    BegunBoth(w, i, j, turns, rest);
    assert !Serial(w, Indices(turns, i, j));
  }

  lemma SharedNotSerial(w: World, i: nat, j: nat)
    requires i < |w.tasks| && j < |w.tasks| && i != j && AllReceived(w.tasks) && AllFit(w.node.ledger, w.tasks)
    requires !Differ(w.tasks[i].tx, w.tasks[j].tx)
    ensures !AlwaysSerial(w)
  {
    var t, u := w.tasks[i].tx, w.tasks[j].tx;
    assert w.tasks[i] == Received(t) && w.tasks[j] == Received(u);
    AppliedInTurn(w.node.ledger, t, u);
    if t.hash == u.hash {
      var turns := BothLook();
      SameHashCreditsTwice(w.node, t, u, turns);
      PairNotSerial(w, i, j, turns, Firsts(3) + (Seconds(3) + []));
    } else {
      var turns := ReadBetween();
      SameReceiverLosesCredit(w.node, t, u, turns);
      PairNotSerial(w, i, j, turns, Firsts(1) + (Seconds(3) + (Firsts(2) + [])));
    }
  }

  /**
   Deliveries that are due, started together, come out as if applied one by one under every schedule exactly
   if no two of them share a hash or a receiver.
   */
  lemma AlwaysSerialIff(w: World)
    requires AllReceived(w.tasks) && AllFit(w.node.ledger, w.tasks)
    ensures AlwaysSerial(w) <==> AllDiffer(w.tasks)
  {
    if AllDiffer(w.tasks) {
      forall schedule ensures Serial(w, schedule) {
        DifferStaysApart(w, schedule, w.tasks);
        ApartSerial(w, schedule);
      }
    } else {
      var i, j :| 0 <= i < |w.tasks| && 0 <= j < |w.tasks| && i != j && !Differ(w.tasks[i].tx, w.tasks[j].tx);
      SharedNotSerial(w, i, j);
    }
  }
}
