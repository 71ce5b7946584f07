/** Which overlaps create money: schedules of two tasks that do, and exactly when none does. */
module Overlaps {
  import opened Bytes
  import opened Types
  import opened Amounts
  import opened Graph
  import opened Insertion
  import opened Crypto
  import opened Ledgers
  import opened Sums
  import opened Transfers
  import opened Races

  // ---- Two tasks among many -------------------------------------------------------------------------

  /** Two tasks make the steps alone: the first at every `true`, the second at every `false`. */
  function RunPair(s: NodeState, x: Task, y: Task, turns: seq<bool>): (NodeState, Task, Task)
    decreases |turns|
  {
    if turns == [] then (s, x, y)
    else if turns[0] then
      var (s', x') := StepTask(s, x);
      RunPair(s', x', y, turns[1..])
    else
      var (s', y') := StepTask(s, y);
      RunPair(s', x, y', turns[1..])
  }

  function Indices(turns: seq<bool>, i: nat, j: nat): seq<nat> {
    if turns == [] then [] else [if turns[0] then i else j] + Indices(turns[1..], i, j)
  }

  lemma {:induction false} PairEmbeds(w: World, i: nat, j: nat, turns: seq<bool>)
    requires i < |w.tasks| && j < |w.tasks| && i != j
    ensures var (s, x, y) := RunPair(w.node, w.tasks[i], w.tasks[j], turns);
            RunWorld(w, Indices(turns, i, j)) == World(s, w.tasks[i := x][j := y])
    decreases |turns|
  {
    if turns == [] {
      assert w.tasks[i := w.tasks[i]][j := w.tasks[j]] == w.tasks;
    } else {
      var k := if turns[0] then i else j;
      var w' := StepWorld(w, k);
      PairEmbeds(w', i, j, turns[1..]);
      assert Indices(turns, i, j)[1..] == Indices(turns[1..], i, j);
      var (s, x, y) := RunPair(w'.node, w'.tasks[i], w'.tasks[j], turns[1..]);
      assert w'.tasks[i := x][j := y] == w.tasks[i := x][j := y];
    }
  }

  /** What the pair gains, the world gains. */
  lemma PairTotal(w: World, i: nat, j: nat, turns: seq<bool>)
    requires i < |w.tasks| && j < |w.tasks| && i != j
    ensures var (s, x, y) := RunPair(w.node, w.tasks[i], w.tasks[j], turns);
            var before := Supply(w.node.ledger) + Underway(w.tasks[i]) + Underway(w.tasks[j]);
            var after := Supply(s.ledger) + Underway(x) + Underway(y);
            Total(RunWorld(w, Indices(turns, i, j))) - Total(w) == after - before
  {
    PairEmbeds(w, i, j, turns);
    var (s, x, y) := RunPair(w.node, w.tasks[i], w.tasks[j], turns);
    UnderwayUpdate(w.tasks, i, x);
    UnderwayUpdate(w.tasks[i := x], j, y);
  }

  /** n steps of the first, of the second, or of both in turn. */
  function Firsts(n: nat): seq<bool> {
    if n == 0 then [] else [true] + Firsts(n - 1)
  }

  function Seconds(n: nat): seq<bool> {
    if n == 0 then [] else [false] + Seconds(n - 1)
  }

  function Turns(n: nat): seq<bool> {
    if n == 0 then [] else [true, false] + Turns(n - 1)
  }

  lemma {:induction false} RunFirsts(s: NodeState, x: Task, y: Task, n: nat, rest: seq<bool>)
    ensures var (s', x') := StepTimes(s, x, n);
            RunPair(s, x, y, Firsts(n) + rest) == RunPair(s', x', y, rest)
    decreases n
  {
    if n == 0 {
      assert [] + rest == rest;
    } else {
      assert (Firsts(n) + rest)[1..] == Firsts(n - 1) + rest;
      RunFirsts(StepTask(s, x).0, StepTask(s, x).1, y, n - 1, rest);
    }
  }

  lemma {:induction false} RunSeconds(s: NodeState, x: Task, y: Task, n: nat, rest: seq<bool>)
    ensures var (s', y') := StepTimes(s, y, n);
            RunPair(s, x, y, Seconds(n) + rest) == RunPair(s', x, y', rest)
    decreases n
  {
    if n == 0 {
      assert [] + rest == rest;
    } else {
      assert (Seconds(n) + rest)[1..] == Seconds(n - 1) + rest;
      RunSeconds(StepTask(s, y).0, x, StepTask(s, y).1, n - 1, rest);
    }
  }

  lemma RunTurn(s: NodeState, x: Task, y: Task, n: nat)
    requires n > 0
    ensures var (s1, x1) := StepTask(s, x);
            var (s2, y1) := StepTask(s1, y);
            RunPair(s, x, y, Turns(n)) == RunPair(s2, x1, y1, Turns(n - 1))
  {
    var turns := Turns(n);
    assert turns[1..] == [false] + Turns(n - 1) && turns[1..][1..] == Turns(n - 1);
  }

  // ---- Two confirmations in lockstep ------------------------------------------------------------------

  /** A transfer to somebody else that its sender can pay. */
  ghost predicate IsCovered(L: Ledger, tx: Transaction) {
    tx.from != tx.to && Balance(L, tx.from) >= Cost(tx)
  }

  /** The graph takes the one and then the other. */
  predicate Accepted(E: Edges, t: Transaction, u: Transaction) {
    var (E', ok) := Advance(E, t.hash, t.parents);
    ok && Advance(E', u.hash, u.parents).1
  }

  /** A task that passed its checks on this ledger. */
  predicate Passed(L: Ledger, a: Task, tx: Transaction) {
    && a.Checked? && a.tx == tx && a.senderBal + Cost(tx) == Balance(L, tx.from)
    && a.receiverBal == Balance(L, tx.to) + tx.amount
  }

  /** A covered transfer passes its checks, and its bond fits the pool. */
  lemma CoveredPasses(L: Ledger, tx: Transaction) returns (a: Task)
    requires Supply(L) <= MAX_AMOUNT && IsCovered(L, tx)
    ensures a == Check(L, tx, Balance(L, tx.from)) && Passed(L, a, tx)
    ensures Pool(L) + BondAmount(tx.amount) <= MAX_AMOUNT
  {
    PairBounds(L, tx.from, tx.to);
    SupplyBounds(L, tx.from);
    a := Check(L, tx, Balance(L, tx.from));
  }

  /** The writes of a task that has passed its checks. */
  function WrittenBy(L: Ledger, a: Task): Ledger
    requires a.Checked?
  {
    Recorded(L, a.tx.(status := Confirmed), a.senderBal, a.receiverBal)
  }

  /** What the first transfer did to accounts the second one writes is undone: its payment, its credit. */
  function Undone(t: Transaction, u: Transaction): int {
    (if t.from in {u.from, u.to} then Cost(t) else 0) - (if t.to in {u.from, u.to} then t.amount else 0)
  }

  lemma BothRead(s: NodeState, t: Transaction, u: Transaction, n: nat)
    requires n > 1
    ensures var a := Check(s.ledger, t, Balance(s.ledger, t.from));
            var b := Check(s.ledger, u, Balance(s.ledger, u.from));
            RunPair(s, Started(t), Started(u), Turns(n)) == RunPair(s, a, b, Turns(n - 2))
  {
    RunTurn(s, Started(t), Started(u), n);
    RunTurn(s, ReadSender(t, Balance(s.ledger, t.from)), ReadSender(u, Balance(s.ledger, u.from)), n - 1);
  }

  lemma BothWrite(s: NodeState, a: Task, b: Task, n: nat) returns (E: Edges)
    requires n > 1 && a.Checked? && b.Checked? && Accepted(s.edges, a.tx, b.tx)
    ensures var s' := NodeState(WrittenBy(WrittenBy(s.ledger, a), b), E);
            var x, y := Written(BondAmount(a.tx.amount)), Written(BondAmount(b.tx.amount));
            RunPair(s, a, b, Turns(n)) == RunPair(s', x, y, Turns(n - 2))
  {
    var E1 := Advance(s.edges, a.tx.hash, a.tx.parents).0;
    E := Advance(E1, b.tx.hash, b.tx.parents).0;
    var c, d := Linked(a.tx, a.senderBal, a.receiverBal), Linked(b.tx, b.senderBal, b.receiverBal);
    var linked := s.(edges := E);
    assert StepTask(s, a) == (s.(edges := E1), c) && StepTask(s.(edges := E1), b) == (linked, d);
    RunTurn(s, a, b, n);
    RunTurn(linked, c, d, n - 1);
  }

  /** After four rounds both have written, each what it had read at first. */
  lemma LockstepWrites(s: NodeState, t: Transaction, u: Transaction, n: nat) returns (a: Task, b: Task, E: Edges)
    requires n >= 4 && Supply(s.ledger) <= MAX_AMOUNT && IsCovered(s.ledger, t) && IsCovered(s.ledger, u)
    requires Accepted(s.edges, t, u)
    ensures Passed(s.ledger, a, t) && Passed(s.ledger, b, u)
    ensures var s' := NodeState(WrittenBy(WrittenBy(s.ledger, a), b), E);
            var x, y := Written(BondAmount(t.amount)), Written(BondAmount(u.amount));
            RunPair(s, Started(t), Started(u), Turns(n)) == RunPair(s', x, y, Turns(n - 4))
  {
    a := CoveredPasses(s.ledger, t);
    b := CoveredPasses(s.ledger, u);
    BothRead(s, t, u, n);
    E := BothWrite(s, a, b, n - 2);
  }

  lemma WrittenSupply(L: Ledger, a: Task)
    requires a.Checked? && a.tx.from != a.tx.to
    ensures var L' := WrittenBy(L, a);
            && Supply(L') == Supply(L) + a.senderBal + a.receiverBal - Balance(L, a.tx.from) - Balance(L, a.tx.to)
            && Pool(L') == Pool(L)
            && (forall pk :: Balance(L', pk) == if pk == a.tx.to then a.receiverBal
                                                else if pk == a.tx.from then a.senderBal else Balance(L, pk))
  {
    RecordedSum(L, a.tx.(status := Confirmed), a.senderBal, a.receiverBal);
  }

  lemma BothWritten(L: Ledger, a: Task, b: Task, t: Transaction, u: Transaction)
    requires Passed(L, a, t) && Passed(L, b, u) && t.from != t.to && u.from != u.to
    ensures var L' := WrittenBy(WrittenBy(L, a), b);
            && Supply(L') + BondAmount(t.amount) + BondAmount(u.amount) == Supply(L) + Undone(t, u)
            && Pool(L') == Pool(L)
  {
    var L1 := WrittenBy(L, a);
    WrittenSupply(L, a);
    WrittenSupply(L1, b);
    assert Balance(L1, u.from) == if u.from == t.to then a.receiverBal
                                  else if u.from == t.from then a.senderBal else Balance(L, u.from);
  }

  lemma BothGive(s: NodeState, first: Amount, second: Amount, n: nat)
    requires n > 1 && Pool(s.ledger) + second <= MAX_AMOUNT
    ensures var s' := s.(ledger := s.ledger.(pool := Some(Pool(s.ledger) + second)));
            RunPair(s, Written(first), Written(second), Turns(n)) == (s', Ended(None), Ended(None))
  {
    var p := Pool(s.ledger);
    var s' := s.(ledger := s.ledger.(pool := Some(p + second)));
    RunTurn(s, Written(first), Written(second), n);
    RunTurn(s, ReadPool(first, p), ReadPool(second, p), n - 1);
    BothEnded(s', n - 2);
  }

  lemma {:induction false} BothEnded(s: NodeState, n: nat)
    ensures RunPair(s, Ended(None), Ended(None), Turns(n)) == (s, Ended(None), Ended(None))
    decreases n
  {
    if n > 0 {
      RunTurn(s, Ended(None), Ended(None), n);
      BothEnded(s, n - 1);
    }
  }

  /** Where two confirmations in lockstep end. */
  lemma LockstepEnds(s: NodeState, t: Transaction, u: Transaction, n: nat) returns (a: Task, b: Task, E: Edges)
    requires n >= 6 && Supply(s.ledger) <= MAX_AMOUNT && IsCovered(s.ledger, t) && IsCovered(s.ledger, u)
    requires Accepted(s.edges, t, u)
    ensures Passed(s.ledger, a, t) && Passed(s.ledger, b, u) && Pool(s.ledger) + BondAmount(u.amount) <= MAX_AMOUNT
    ensures var L := WrittenBy(WrittenBy(s.ledger, a), b);
            var s' := NodeState(L.(pool := Some(Pool(s.ledger) + BondAmount(u.amount))), E);
            RunPair(s, Started(t), Started(u), Turns(n)) == (s', Ended(None), Ended(None))
  {
    a, b, E := LockstepWrites(s, t, u, n);
    BondFits(s.ledger, u);
    BothGive(NodeState(WrittenBy(WrittenBy(s.ledger, a), b), E), BondAmount(t.amount), BondAmount(u.amount), n - 4);
  }

  /**
   Two confirmations in lockstep both succeed. Whatever the first did to an account the second writes is
   undone, and its bond is lost.
   */
  lemma LockstepRace(s: NodeState, t: Transaction, u: Transaction, n: nat)
    requires n >= 6 && Supply(s.ledger) <= MAX_AMOUNT && IsCovered(s.ledger, t) && IsCovered(s.ledger, u)
    requires Accepted(s.edges, t, u)
    ensures var (s', x, y) := RunPair(s, Started(t), Started(u), Turns(n));
            && x == y == Ended(None)
            && Supply(s'.ledger) == Supply(s.ledger) + Undone(t, u) - BondAmount(t.amount)
  {
    var a, b, E := LockstepEnds(s, t, u, n);
    BothWritten(s.ledger, a, b, t, u);
  }

  lemma BondFits(L: Ledger, tx: Transaction)
    requires Supply(L) <= MAX_AMOUNT && IsCovered(L, tx)
    ensures Pool(L) + BondAmount(tx.amount) <= MAX_AMOUNT
  {
    SupplyBounds(L, tx.from);
  }

  // ---- A confirmation and a credit --------------------------------------------------------------------

  /** The first makes `a` steps, then the second `b`, then the first `c`. */
  function Around(a: nat, b: nat, c: nat): seq<bool> {
    Firsts(a) + (Seconds(b) + (Firsts(c) + []))
  }

  lemma RunAround(s: NodeState, x: Task, y: Task, a: nat, b: nat, c: nat)
    ensures var (s1, x1) := StepTimes(s, x, a);
            var (s2, y1) := StepTimes(s1, y, b);
            var (s3, x2) := StepTimes(s2, x1, c);
            RunPair(s, x, y, Around(a, b, c)) == (s3, x2, y1)
  {
    var (s1, x1) := StepTimes(s, x, a);
    var (s2, y1) := StepTimes(s1, y, b);
    RunFirsts(s, x, y, a, Seconds(b) + (Firsts(c) + []));
    RunSeconds(s1, x1, y, b, Firsts(c) + []);
    RunFirsts(s2, x1, y1, c, []);
  }

  /** An undisturbed confirmation, as far as one account is concerned. */
  lemma ConfirmAlone(s: NodeState, t: Transaction, pk: PubKey) returns (mid: NodeState)
    requires Supply(s.ledger) <= MAX_AMOUNT && IsCovered(s.ledger, t) && Advance(s.edges, t.hash, t.parents).1
    ensures StepTimes(s, Started(t), 6) == (mid, Ended(None)) && Supply(mid.ledger) == Supply(s.ledger)
    ensures Balance(mid.ledger, pk) == Balance(s.ledger, pk) - (if pk == t.from then Cost(t) else 0)
                                                             + (if pk == t.to then t.amount else 0)
  {
    UndisturbedIsConfirm(s, t);
    ConfirmConserves(s, t);
    mid := Confirm(s, t).0;
  }

  /** A credit that reads before a confirmation and writes after it. */
  lemma CreditAround(s: NodeState, c: Transaction, t: Transaction, mid: NodeState, turns: seq<bool>)
    requires turns == Around(2, 6, 2)
    requires Due(s.ledger, c) && StepTimes(s, Started(t), 6) == (mid, Ended(None))
    ensures var (s', x) := StepTimes(mid, Raised(c, Balance(s.ledger, c.to) + c.amount), 2);
            RunPair(s, Received(c), Started(t), turns) == (s', x, Ended(None))
  {
    RunAround(s, Received(c), Started(t), 2, 6, 2);
    CreditReads(s, c);
  }

  lemma AroundConfirm(s: NodeState, c: Transaction, t: Transaction, turns: seq<bool>) returns (mid: NodeState)
    requires turns == Around(2, 6, 2)
    requires Supply(s.ledger) <= MAX_AMOUNT && Due(s.ledger, c) && IsCovered(s.ledger, t)
    requires Advance(s.edges, t.hash, t.parents).1
    ensures var (s', x) := StepTimes(mid, Raised(c, Balance(s.ledger, c.to) + c.amount), 2);
            RunPair(s, Received(c), Started(t), turns) == (s', x, Ended(None))
    ensures Supply(mid.ledger) == Supply(s.ledger)
    ensures Balance(mid.ledger, c.to) == Balance(s.ledger, c.to) - (if c.to == t.from then Cost(t) else 0)
                                                                 + (if c.to == t.to then t.amount else 0)
  {
    mid := ConfirmAlone(s, t, c.to);
    CreditAround(s, c, t, mid, turns);
  }

  /** Then what the confirmation did to the credited account is undone: its payment, or its own credit. */
  lemma CreditUndoesConfirm(s: NodeState, c: Transaction, t: Transaction, turns: seq<bool>)
    requires turns == Around(2, 6, 2)
    requires Supply(s.ledger) <= MAX_AMOUNT && Due(s.ledger, c) && IsCovered(s.ledger, t)
    requires Advance(s.edges, t.hash, t.parents).1
    ensures var (s', x, y) := RunPair(s, Received(c), Started(t), turns);
            && x == y == Ended(None) && c.hash in s'.ledger.applied
            && Supply(s'.ledger) == Supply(s.ledger) + c.amount
                 + (if t.from == c.to then Cost(t) else 0) - (if t.to == c.to then t.amount else 0)
  {
    var mid := AroundConfirm(s, c, t, turns);
    CreditWrites(mid, c, Balance(s.ledger, c.to) + c.amount);
  }

  /** A confirmation that reads before a credit and writes after it. */
  lemma ConfirmAround(s: NodeState, t: Transaction, c: Transaction, a: Task, turns: seq<bool>)
    requires turns == Around(2, 4, 4)
    requires Due(s.ledger, c) && a == Check(s.ledger, t, Balance(s.ledger, t.from))
    ensures var (s', x) := StepTimes(s.(ledger := Apply(s.ledger, c).0), a, 4);
            RunPair(s, Started(t), Received(c), turns) == (s', x, Ended(None))
  {
    RunAround(s, Started(t), Received(c), 2, 4, 4);
    assert StepTimes(s, Started(t), 2) == (s, a);
    UndisturbedIsApply(s, c, 4);
  }

  lemma CreditAdds(L: Ledger, c: Transaction)
    requires Due(L, c)
    ensures var L' := Apply(L, c).0;
            && Supply(L') == Supply(L) + c.amount && Pool(L') == Pool(L) && c.hash in L'.applied
            && forall pk :: Balance(L', pk) == Balance(L, pk) + if pk == c.to then c.amount else 0
  {
    SumUpdate(L.bal, c.to, Balance(L, c.to) + c.amount);
  }

  /** Then the credit is lost if the confirmation writes the credited account, though it is marked as applied. */
  lemma ConfirmUndoesCredit(s: NodeState, t: Transaction, c: Transaction, turns: seq<bool>)
    requires turns == Around(2, 4, 4)
    requires Supply(s.ledger) <= MAX_AMOUNT && Due(s.ledger, c) && IsCovered(s.ledger, t)
    requires Advance(s.edges, t.hash, t.parents).1
    ensures var (s', x, y) := RunPair(s, Started(t), Received(c), turns);
            && x == y == Ended(None) && c.hash in s'.ledger.applied
            && Supply(s'.ledger) == Supply(s.ledger) + if c.to in {t.from, t.to} then 0 else c.amount
  {
    var a := CoveredPasses(s.ledger, t);
    ConfirmAround(s, t, c, a, turns);
    CreditAdds(s.ledger, c);
    CheckedWrites(s.(ledger := Apply(s.ledger, c).0), a);
  }

  /** The last four steps of a confirmation. */
  lemma CheckedWrites(s: NodeState, a: Task)
    requires a.Checked? && a.tx.from != a.tx.to && Advance(s.edges, a.tx.hash, a.tx.parents).1
    requires Pool(s.ledger) + BondAmount(a.tx.amount) <= MAX_AMOUNT
    ensures var (s', x) := StepTimes(s, a, 4);
            && x == Ended(None) && s'.ledger.applied == s.ledger.applied
            && Supply(s'.ledger) == Supply(s.ledger) + a.senderBal + a.receiverBal
                 - Balance(s.ledger, a.tx.from) - Balance(s.ledger, a.tx.to) + BondAmount(a.tx.amount)
  {
    WrittenSupply(s.ledger, a);
    var bond := BondAmount(a.tx.amount);
    var linked := s.(edges := Advance(s.edges, a.tx.hash, a.tx.parents).0);
    var written := linked.(ledger := WrittenBy(s.ledger, a));
    assert StepTask(s, a) == (linked, Linked(a.tx, a.senderBal, a.receiverBal));
    assert StepTimes(s, a, 4) == StepTimes(linked, Linked(a.tx, a.senderBal, a.receiverBal), 3);
    assert StepTask(linked, Linked(a.tx, a.senderBal, a.receiverBal)) == (written, Written(bond));
    assert StepTimes(linked, Linked(a.tx, a.senderBal, a.receiverBal), 3) == StepTimes(written, Written(bond), 2);
    GivesBond(written, bond);
  }

  lemma GivesBond(s: NodeState, bond: Amount)
    requires Pool(s.ledger) + bond <= MAX_AMOUNT
    ensures StepTimes(s, Written(bond), 2)
         == (s.(ledger := s.ledger.(pool := Some(Pool(s.ledger) + bond))), Ended(None))
  {
    var p := Pool(s.ledger);
    assert StepTimes(s, Written(bond), 2) == StepTimes(s, ReadPool(bond, p), 1);
    var end := StepTask(s, ReadPool(bond, p));
    assert StepTimes(s, ReadPool(bond, p), 1) == StepTimes(end.0, end.1, 0);
  }

  // ---- Exactly when no schedule creates money ----------------------------------------------------------

  /** Each task on its own goes through: transfers are covered and fit the graph, credits are due. */
  ghost predicate Ready(s: NodeState, tasks: seq<Task>) {
    && AtStart(tasks)
    && forall i :: 0 <= i < |tasks| ==>
         var tx := tasks[i].tx;
         if tasks[i].Started? then tx.amount > 0 && IsCovered(s.ledger, tx) && Advance(s.edges, tx.hash, tx.parents).1
         else Due(s.ledger, tx)
  }

  /** And so does each confirmation after any other. */
  ghost predicate PairsAccepted(E: Edges, tasks: seq<Task>) {
    forall i, j :: 0 <= i < |tasks| && 0 <= j < |tasks| && i != j && tasks[i].Started? && tasks[j].Started? ==>
      Accepted(E, tasks[i].tx, tasks[j].tx)
  }

  /** Of two transfers between the same two accounts, in the same or in opposite directions, one carries a bond. */
  ghost predicate BondBetween(tasks: seq<Task>) {
    forall i, j :: 0 <= i < |tasks| && 0 <= j < |tasks| && i != j && tasks[i].Started? && tasks[j].Started?
                   && Accounts(tasks[i]) == Accounts(tasks[j]) ==>
      BondAmount(tasks[i].tx.amount) + BondAmount(tasks[j].tx.amount) > 0
  }

  ghost predicate NeverCreates(w: World) {
    forall schedule :: Total(RunWorld(w, schedule)) <= Total(w)
  }

  lemma LockstepCreates(w: World, i: nat, j: nat)
    requires i < |w.tasks| && j < |w.tasks| && i != j && w.tasks[i].Started? && w.tasks[j].Started?
    requires Supply(w.node.ledger) <= MAX_AMOUNT && Accepted(w.node.edges, w.tasks[i].tx, w.tasks[j].tx)
    requires IsCovered(w.node.ledger, w.tasks[i].tx) && IsCovered(w.node.ledger, w.tasks[j].tx)
    requires Undone(w.tasks[i].tx, w.tasks[j].tx) > 0
    ensures !NeverCreates(w)
  {
    var t, u := w.tasks[i].tx, w.tasks[j].tx;
    var a, b, E := LockstepWrites(w.node, t, u, 4);
    BothWritten(w.node.ledger, a, b, t, u);
    PairTotal(w, i, j, Turns(4));
    assert Total(RunWorld(w, Indices(Turns(4), i, j))) > Total(w);
  }

  lemma CreditCreates(w: World, i: nat, j: nat)
    requires i < |w.tasks| && j < |w.tasks| && i != j && w.tasks[i].Started? && w.tasks[j].Received?
    requires Supply(w.node.ledger) <= MAX_AMOUNT && Ready(w.node, w.tasks)
    requires w.tasks[i].tx.from == w.tasks[j].tx.to
    ensures !NeverCreates(w)
  {
    var t, c := w.tasks[i].tx, w.tasks[j].tx;
    var turns := Around(2, 6, 2);
    CreditUndoesConfirm(w.node, c, t, turns);
    PairTotal(w, j, i, turns);
    assert Total(RunWorld(w, Indices(turns, j, i))) > Total(w);
  }

  /** A payer whose account another task writes: one of the schedules above creates money. */
  lemma TouchedPayerCreates(w: World, i: nat, j: nat)
    requires i < |w.tasks| && j < |w.tasks| && i != j && w.tasks[i].Started?
    requires w.tasks[i].tx.from in Accounts(w.tasks[j])
    requires Supply(w.node.ledger) <= MAX_AMOUNT && Ready(w.node, w.tasks)
    requires PairsAccepted(w.node.edges, w.tasks) && BondBetween(w.tasks)
    ensures !NeverCreates(w)
  {
    if w.tasks[j].Received? {
      CreditCreates(w, i, j);
    } else if Undone(w.tasks[i].tx, w.tasks[j].tx) > 0 {
      LockstepCreates(w, i, j);
    } else {
      LockstepCreates(w, j, i);
    }
  }

  /**
   Tasks that would each go through, started together, can create money under some schedule exactly if one
   of them pays out of an account that another one pays out of or credits.
   */
  lemma NeverCreatesIff(w: World)
    requires Supply(w.node.ledger) <= MAX_AMOUNT && Ready(w.node, w.tasks)
    requires PairsAccepted(w.node.edges, w.tasks) && BondBetween(w.tasks)
    ensures NeverCreates(w) <==> PayersApart(w.tasks)
  {
    if PayersApart(w.tasks) {
      forall schedule ensures Total(RunWorld(w, schedule)) <= Total(w) {
        OverlappingNeverCreates(w, schedule);
      }
    } else {
      var i, j :| 0 <= i < |w.tasks| && 0 <= j < |w.tasks| && i != j && Pays(w.tasks[i])
        && w.tasks[i].tx.from in Accounts(w.tasks[j]);
      TouchedPayerCreates(w, i, j);
    }
  }

  // ---- Two transfers between the same accounts, without bonds ------------------------------------------

  /** Both move money between the same two accounts and leave no bond. */
  predicate SameAccounts(t: Transaction, u: Transaction) {
    && ((t.from == u.from && t.to == u.to) || (t.from == u.to && t.to == u.from))
    && BondAmount(t.amount) == 0 && BondAmount(u.amount) == 0
  }

  /** They go in opposite directions, or the receiver cannot hold both. */
  predicate Exclusive(L: Ledger, t: Transaction, u: Transaction) {
    t.from != u.from || Balance(L, t.to) + t.amount + u.amount > MAX_AMOUNT
  }

  /** What a task will write to its two accounts is at most `sum`, unless its check fails. */
  predicate Loose(L: Ledger, sum: nat, pool: nat, x: Task) {
    && (x.ReadSender? ==> x.bal + Balance(L, x.tx.to) <= sum || Balance(L, x.tx.to) + x.tx.amount > MAX_AMOUNT)
    && (x.Checked? || x.Linked? ==> x.senderBal + x.receiverBal <= sum)
    && (x.Written? ==> x.bond == 0)
    && (x.ReadPool? ==> x.bond == 0 && x.pool == pool)
  }

  /** Nothing that a task has read has changed. */
  predicate Current(L: Ledger, x: Task) {
    && (x.ReadSender? ==> x.bal == Balance(L, x.tx.from))
    && (x.Checked? || x.Linked? ==>
          x.senderBal + Cost(x.tx) == Balance(L, x.tx.from) && x.receiverBal == Balance(L, x.tx.to) + x.tx.amount)
  }

  /** A task of the pair: one of the two transfers, or past its writes. */
  predicate IsOf(x: Task, t: Transaction) {
    if Pays(x) then x.tx == t else x.Written? || x.ReadPool? || x.Ended?
  }

  /** The two accounts of `t` hold at most `sum`, everybody else and the pool what they held in `L0`. */
  ghost predicate PairHolds(L0: Ledger, L: Ledger, t: Transaction, sum: nat) {
    && Balance(L, t.from) + Balance(L, t.to) <= sum && Pool(L) == Pool(L0)
    && Supply(L) - Balance(L, t.from) - Balance(L, t.to) == Supply(L0) - sum
  }

  ghost predicate PairInvariant(L0: Ledger, L: Ledger, t: Transaction, u: Transaction, x: Task, y: Task) {
    var sum := Balance(L0, t.from) + Balance(L0, t.to);
    && IsOf(x, t) && IsOf(y, u) && PairHolds(L0, L, t, sum)
    && Loose(L, sum, Pool(L0), x) && Loose(L, sum, Pool(L0), y)
    && (Pays(x) && Pays(y) ==> L.bal == L0.bal && Current(L, x) && Current(L, y))
  }

  lemma WriteHolds(L0: Ledger, L: Ledger, t: Transaction, sum: nat, x: Task)
    requires PairHolds(L0, L, t, sum) && x.Linked? && x.tx == t && t.from != t.to && x.senderBal + x.receiverBal <= sum
    ensures PairHolds(L0, Recorded(L, t.(status := Confirmed), x.senderBal, x.receiverBal), t, sum)
  {
    RecordedSum(L, t.(status := Confirmed), x.senderBal, x.receiverBal);
  }

  /** The first writes: what the other one has read is out of date now, but never to the good. */
  lemma PairWrites(L0: Ledger, L: Ledger, t: Transaction, u: Transaction, x: Task, y: Task)
    requires t.from != t.to && SameAccounts(t, u) && Exclusive(L0, t, u)
    requires PairInvariant(L0, L, t, u, x, y) && x.Linked?
    ensures var L' := Recorded(L, t.(status := Confirmed), x.senderBal, x.receiverBal);
            PairInvariant(L0, L', t, u, Written(0), y)
  {
    WriteHolds(L0, L, t, Balance(L0, t.from) + Balance(L0, t.to), x);
  }

  /** The first makes another step: no balance changes. */
  lemma PairGoesOn(L0: Ledger, s: NodeState, t: Transaction, u: Transaction, x: Task, y: Task)
    requires t.from != t.to && SameAccounts(t, u)
    requires PairInvariant(L0, s.ledger, t, u, x, y) && !x.Linked?
    ensures var (s', x') := StepTask(s, x);
            && s'.ledger.bal == s.ledger.bal && Pool(s'.ledger) == Pool(s.ledger)
            && IsOf(x', t) && (Pays(x') ==> Pays(x))
            && Loose(s.ledger, Balance(L0, t.from) + Balance(L0, t.to), Pool(L0), x')
            && (Current(s.ledger, x) ==> Current(s.ledger, x'))
  {
  }

  /** A step of the first task of the pair. */
  lemma PairStep(L0: Ledger, s: NodeState, t: Transaction, u: Transaction, x: Task, y: Task)
    requires t.from != t.to && SameAccounts(t, u) && Exclusive(L0, t, u)
    requires PairInvariant(L0, s.ledger, t, u, x, y)
    ensures var (s', x') := StepTask(s, x);
            PairInvariant(L0, s'.ledger, t, u, x', y)
  {
    if x.Linked? {
      PairWrites(L0, s.ledger, t, u, x, y);
    } else {
      PairGoesOn(L0, s, t, u, x, y);
      SameBalances(L0, s.ledger, StepTask(s, x).0.ledger, t, u, x, StepTask(s, x).1, y);
    }
  }

  lemma SameBalances(
      L0: Ledger, L: Ledger, L': Ledger, t: Transaction, u: Transaction, x: Task, x': Task, y: Task)
    requires PairInvariant(L0, L, t, u, x, y) && L'.bal == L.bal && Pool(L') == Pool(L)
    requires IsOf(x', t) && (Pays(x') ==> Pays(x)) && (Current(L, x) ==> Current(L, x'))
    requires Loose(L, Balance(L0, t.from) + Balance(L0, t.to), Pool(L0), x')
    ensures PairInvariant(L0, L', t, u, x', y)
  {
  }

  lemma PairHoldsSwapped(L0: Ledger, L: Ledger, t: Transaction, u: Transaction)
    requires SameAccounts(t, u)
    ensures PairHolds(L0, L, t, Balance(L0, t.from) + Balance(L0, t.to))
       <==> PairHolds(L0, L, u, Balance(L0, u.from) + Balance(L0, u.to))
  {
  }

  lemma PairSwapped(L0: Ledger, L: Ledger, t: Transaction, u: Transaction, x: Task, y: Task)
    requires SameAccounts(t, u) && PairInvariant(L0, L, t, u, x, y)
    ensures PairInvariant(L0, L, u, t, y, x)
  {
    PairHoldsSwapped(L0, L, t, u);
    assert Balance(L0, t.from) + Balance(L0, t.to) == Balance(L0, u.from) + Balance(L0, u.to);
  }

  lemma PairUnderway(x: Task, y: Task)
    ensures AllUnderway([x, y]) == Underway(x) + Underway(y)
  {
    assert [x, y][..1] == [x] && [x][..0] == [];
    assert AllUnderway([x]) == AllUnderway([]) + Underway(x);
  }

  lemma {:induction false} PairKeeps(
      L0: Ledger, s: NodeState, t: Transaction, u: Transaction, x: Task, y: Task, schedule: seq<nat>)
    requires t.from != t.to && SameAccounts(t, u) && Exclusive(L0, t, u)
    requires PairInvariant(L0, s.ledger, t, u, x, y)
    ensures Total(RunWorld(World(s, [x, y]), schedule)) <= Supply(L0)
    decreases |schedule|
  {
    var w := World(s, [x, y]);
    if schedule == [] {
      PairUnderway(x, y);
    } else if schedule[0] == 0 {
      PairStep(L0, s, t, u, x, y);
      var (s', x') := StepTask(s, x);
      assert StepWorld(w, 0) == World(s', [x', y]);
      PairKeeps(L0, s', t, u, x', y, schedule[1..]);
    } else if schedule[0] == 1 {
      PairSwapped(L0, s.ledger, t, u, x, y);
      PairStep(L0, s, u, t, y, x);
      var (s', y') := StepTask(s, y);
      PairSwapped(L0, s'.ledger, u, t, y', x);
      assert StepWorld(w, 1) == World(s', [x, y']);
      PairKeeps(L0, s', t, u, x, y', schedule[1..]);
    } else {
      PairKeeps(L0, s, t, u, x, y, schedule[1..]);
    }
  }

  /** The second payer reads its balance before the first pays, and the receiver's after. */
  lemma SecondPaysFromOld(s: NodeState, t: Transaction, u: Transaction, turns: seq<bool>)
    requires turns == Around(1, 6, 3) && Supply(s.ledger) <= MAX_AMOUNT
    requires IsCovered(s.ledger, t) && IsCovered(s.ledger, u) && Accepted(s.edges, t, u)
    requires t.from == u.from && t.to == u.to && Balance(s.ledger, t.to) + t.amount + u.amount <= MAX_AMOUNT
    ensures var (s', x, y) := RunPair(s, Started(u), Started(t), turns);
            Supply(s'.ledger) + Underway(x) + Underway(y) == Supply(s.ledger) + Cost(t)
  {
    var mid := ConfirmAlone(s, t, t.from);
    var same := ConfirmAlone(s, t, t.to);
    ConfirmLinks(s, t);
    SupplyBounds(s.ledger, u.from);
    RunAround(s, Started(u), Started(t), 1, 6, 3);
    OldReadPays(mid, u, Balance(s.ledger, u.from));
  }

  lemma ConfirmLinks(s: NodeState, t: Transaction)
    requires StepTimes(s, Started(t), 6).1 == Ended(None)
    ensures StepTimes(s, Started(t), 6).0.edges == Advance(s.edges, t.hash, t.parents).0
  {
    UndisturbedIsConfirm(s, t);
  }

  lemma OldReadPays(s: NodeState, u: Transaction, bal: Amount)
    requires u.from != u.to && bal >= Cost(u) && bal <= MAX_AMOUNT && Advance(s.edges, u.hash, u.parents).1
    requires Balance(s.ledger, u.to) + u.amount <= MAX_AMOUNT
    ensures var (s', x) := StepTimes(s, ReadSender(u, bal), 3);
            Supply(s'.ledger) + Underway(x) == Supply(s.ledger) + bal - Balance(s.ledger, u.from)
  {
    var a := Check(s.ledger, u, bal);
    var linked := s.(edges := Advance(s.edges, u.hash, u.parents).0);
    var b := Linked(u, a.senderBal, a.receiverBal);
    assert StepTimes(s, ReadSender(u, bal), 3) == StepTimes(s, a, 2);
    assert StepTask(s, a) == (linked, b);
    var end := StepTask(linked, b);
    assert StepTimes(s, a, 2) == StepTimes(linked, b, 1) == StepTimes(end.0, end.1, 0);
    WrittenSupply(s.ledger, a);
  }

  /** So they create money under some schedule exactly if they go in the same direction and both fit. */
  lemma SameAccountsIff(s: NodeState, t: Transaction, u: Transaction)
    requires Supply(s.ledger) <= MAX_AMOUNT && IsCovered(s.ledger, t) && IsCovered(s.ledger, u)
    requires t.amount > 0 && Accepted(s.edges, t, u) && SameAccounts(t, u)
    ensures NeverCreates(World(s, [Started(t), Started(u)])) <==> Exclusive(s.ledger, t, u)
  {
    var w := World(s, [Started(t), Started(u)]);
    PairUnderway(Started(t), Started(u));
    if Exclusive(s.ledger, t, u) {
      forall schedule ensures Total(RunWorld(w, schedule)) <= Total(w) {
        PairKeeps(s.ledger, s, t, u, Started(t), Started(u), schedule);
      }
    } else {
      var turns := Around(1, 6, 3);
      SecondPaysFromOld(s, t, u, turns);
      PairTotal(w, 1, 0, turns);
      assert Total(RunWorld(w, Indices(turns, 1, 0))) > Total(w);
    }
  }

  /** So for two transfers the condition is exact whatever their bonds. */
  lemma TwoTransfersIff(s: NodeState, t: Transaction, u: Transaction)
    requires Supply(s.ledger) <= MAX_AMOUNT && IsCovered(s.ledger, t) && IsCovered(s.ledger, u)
    requires t.amount > 0 && u.amount > 0 && Accepted(s.edges, t, u) && Accepted(s.edges, u, t)
    ensures NeverCreates(World(s, [Started(t), Started(u)]))
       <==> || (t.from !in {u.from, u.to} && u.from !in {t.from, t.to})
            || (SameAccounts(t, u) && Exclusive(s.ledger, t, u))
  {
    if SameAccounts(t, u) {
      SameAccountsIff(s, t, u);
    } else {
      var w := World(s, [Started(t), Started(u)]);
      assert w.tasks[0] == Started(t) && w.tasks[1] == Started(u);
      if Accounts(w.tasks[0]) == Accounts(w.tasks[1]) {
        TwoAccounts(t, u);
      }
      NeverCreatesIff(w);
    }
  }

  lemma TwoAccounts(t: Transaction, u: Transaction)
    requires t.from != t.to && u.from != u.to && {t.from, t.to} == {u.from, u.to}
    ensures (t.from == u.from && t.to == u.to) || (t.from == u.to && t.to == u.from)
  {
    assert u.from in {t.from, t.to} && u.to in {t.from, t.to};
  }

  /** Two payments of 1000 that are built from the same 10000 and confirmed in lockstep leave 11000. */
  lemma OverlapCreatesMoney(scheme: Scheme, kp: KeyPair, a: PubKey, b: PubKey, now: Time)
    requires a != kp.pub && b != kp.pub && a != b
    ensures var s := Funded(kp.pub);
            var t := Build(s.ledger, [], scheme, kp, a, 1000, 0, now);
            var u := Build(s.ledger, [], scheme, kp, b, 1000, 1, now);
            && t.Ok? && u.Ok? && Supply(s.ledger) == 10_000
            && Supply(RunPair(s, Started(t.value), Started(u.value), Turns(6)).0.ledger) == 11_000
  {
    FundedSupply(kp.pub);
    var t := FundedPays(scheme, kp, a, 0, now);
    var u := FundedPays(scheme, kp, b, 1, now);
    LockstepRace(Funded(kp.pub), t, u, 6);
  }
}
