/**
 The packets of one transaction in a network of nodes. Each node forwards an id six times at most,
 so whatever the nodes and connections do, the traffic dies out within a bound known in advance.
 No cleanup pass runs meanwhile.
 */
module Traffic {
  import opened Bytes
  import opened Types
  import opened Sums
  import opened Quorum
  import opened Gossips
  import opened Packets

  /** The transaction, the node that sent it, and every key some node counts as an active witness. */
  datatype Config = Config(txHash: Hash, originator: PubKey, witnesses: set<PubKey>)

  /**
   The forwarding caches of all nodes, the packets in flight, and at the originator: whether the pending
   entry is still in the table, the signatures it holds, the handlers that claimed the confirmation and
   have not removed the entry yet, and the confirmations started but not yet run.
   */
  datatype Net = Net(
    nodes: map<PubKey, Seen>, inflight: multiset<(PubKey, Packet)>,
    open: bool, collected: nat, claims: nat, tasks: nat)

  datatype NetStep =
    | Deliver(dest: PubKey, pkt: Packet, now: Time, peers: set<PubKey>, accepts: bool, stale: bool, out: Sends)
    | Lose(dest: PubKey, pkt: Packet)
    | Remove
    | RunConfirm(confirmed: Packet, peers: set<PubKey>, out: Sends)
    | Other(node: PubKey, id: Hash, now: Time)

  /** Packets about this transaction, under the ids the source gives them. */
  ghost predicate Belongs(cfg: Config, pkt: Packet) {
    match pkt.payload
    case NonceLockMsg(_, _) => pkt.msgId == cfg.txHash
    case TxVerifyMsg(tx, _) => pkt.msgId == cfg.txHash && tx.hash == cfg.txHash
    case ConfirmedMsg(tx) => pkt.msgId == cfg.txHash && tx.hash == cfg.txHash
    case WitnessSigMsg(h, sig) => sig.signer in cfg.witnesses && IsSigPacket(pkt, cfg.txHash, sig.signer)
  }

  /** Everything in flight is about this transaction and on its way to a node of the network. */
  ghost predicate WellFormed(cfg: Config, s: Net) {
    forall m :: m in s.inflight ==> Belongs(cfg, m.1) && m.0 in s.nodes
  }

  /**
   A signature that reaches the originator is kept while the entry is there. A handler that looked
   the entry up before it was removed still keeps it afterwards.
   */
  predicate Absorbs(cfg: Config, s: Net, dest: PubKey, pkt: Packet, stale: bool) {
    pkt.payload.WitnessSigMsg? && dest == cfg.originator && (s.open || stale)
  }

  function SeenAfter(cfg: Config, s: Net, dest: PubKey, pkt: Packet, now: Time, stale: bool): Seen
    requires dest in s.nodes
  {
    if Absorbs(cfg, s, dest, pkt, stale) then s.nodes[dest] else Forward(s.nodes[dest], pkt.msgId, now).0
  }

  ghost predicate Enabled(cfg: Config, s: Net, step: NetStep) {
    match step
    case Deliver(dest, pkt, now, peers, accepts, stale, out) =>
      && (dest, pkt) in s.inflight && dest in s.nodes && peers <= s.nodes.Keys
      && (accepts ==> dest in cfg.witnesses)
      && Responds(dest, accepts, Absorbs(cfg, s, dest, pkt, stale), s.nodes[dest], pkt, now, peers,
                  SeenAfter(cfg, s, dest, pkt, now, stale), out)
    case Lose(dest, pkt) => (dest, pkt) in s.inflight
    case Remove => s.claims > 0
    case RunConfirm(pkt, peers, out) =>
      && s.tasks > 0 && pkt.payload.ConfirmedMsg? && Belongs(cfg, pkt) && peers <= s.nodes.Keys
      && (out == [] || IsBroadcast(out, pkt, peers))
    case Other(node, _, _) => node in s.nodes
  }

  function Next(cfg: Config, s: Net, step: NetStep): Net {
    match step
    case Deliver(dest, pkt, now, _, _, stale, out) =>
      var inflight := s.inflight - multiset{(dest, pkt)} + multiset(out);
      if dest !in s.nodes then
        s
      else if Absorbs(cfg, s, dest, pkt, stale) then
        var claim := if s.collected + 1 == QUORUM_K then 1 else 0;
        s.(inflight := inflight, collected := s.collected + 1, claims := s.claims + claim)
      else
        s.(inflight := inflight, nodes := s.nodes[dest := SeenAfter(cfg, s, dest, pkt, now, stale)])
    case Lose(dest, pkt) => s.(inflight := s.inflight - multiset{(dest, pkt)})
    case Remove => if s.claims > 0 then s.(claims := s.claims - 1, open := false, tasks := s.tasks + 1) else s
    case RunConfirm(_, _, out) =>
      s.(inflight := s.inflight + multiset(out), tasks := if s.tasks > 0 then s.tasks - 1 else 0)
    case Other(node, id, now) =>
      if node in s.nodes then s.(nodes := s.nodes[node := Forward(s.nodes[node], id, now).0]) else s
  }

  // ---- At most one confirmation ----------------------------------------------------------------

  /**
   From the third signature on, exactly one confirmation is claimed, outstanding or was run; the entry
   stays in the table until the claim removes it, and may collect more signatures meanwhile.
   */
  ghost predicate Confirming(s: Net, ran: nat) {
    && s.claims + s.tasks + ran == (if s.collected < QUORUM_K then 0 else 1)
    && (s.open <==> s.tasks + ran == 0)
  }

  function ConfirmRuns(steps: seq<NetStep>): nat {
    if steps == [] then 0 else (if steps[0].RunConfirm? then 1 else 0) + ConfirmRuns(steps[1..])
  }

  function After(cfg: Config, s: Net, steps: seq<NetStep>): Net
    decreases |steps|
  {
    if steps == [] then s else After(cfg, Next(cfg, s, steps[0]), steps[1..])
  }

  /** However the packets travel, a transaction is confirmed at most once, and not before three signatures were kept. */
  lemma {:induction false} ConfirmRunsOnce(cfg: Config, s: Net, steps: seq<NetStep>, ran: nat)
    requires IsRun(cfg, s, steps) && Confirming(s, ran)
    ensures Confirming(After(cfg, s, steps), ran + ConfirmRuns(steps))
    decreases |steps|
  {
    if steps != [] {
      var more := if steps[0].RunConfirm? then 1 else 0;
      assert Confirming(Next(cfg, s, steps[0]), ran + more);
      ConfirmRunsOnce(cfg, Next(cfg, s, steps[0]), steps[1..], ran + more);
    }
  }

  // ---- The potential --------------------------------------------------------------------------

  function SigLeft(cfg: Config, seen: Seen): map<PubKey, nat> {
    map w | w in cfg.witnesses :: Left(seen, SigMsgId(cfg.txHash, w))
  }

  /** What a node can still send: 16 packets per forward of the transaction's id, 8 per forward of a signature's. */
  ghost function Budget(cfg: Config, seen: Seen): nat {
    16 * Left(seen, cfg.txHash) + 8 * Sum(SigLeft(cfg, seen))
  }

  ghost function Budgets(cfg: Config, nodes: map<PubKey, Seen>): map<PubKey, nat> {
    map n | n in nodes :: Budget(cfg, nodes[n])
  }

  /** Packets in flight, remaining budgets, and 10 for a confirmation that is still to come, 9 once it is started. */
  ghost function Potential(cfg: Config, s: Net): nat {
    |s.inflight| + Sum(Budgets(cfg, s.nodes)) + (if s.collected < QUORUM_K then 10 else 0) + 10 * s.claims + 9 * s.tasks
  }

  lemma ForwardLeft(seen: Seen, id: Hash, now: Time)
    ensures var (seen', granted) := Forward(seen, id, now);
            && (granted ==> Left(seen', id) + 1 == Left(seen, id))
            && (forall j :: j != id ==> Left(seen', j) == Left(seen, j))
            && (!granted ==> seen' == seen)
  {
  }

  ghost predicate IsSigId(cfg: Config, id: Hash) {
    exists w :: w in cfg.witnesses && id == SigMsgId(cfg.txHash, w)
  }

  lemma BudgetForward(cfg: Config, seen: Seen, id: Hash, now: Time)
    ensures var (seen', granted) := Forward(seen, id, now);
            && Budget(cfg, seen') <= Budget(cfg, seen)
            && (granted && id == cfg.txHash ==> Budget(cfg, seen') + 16 <= Budget(cfg, seen))
            && (granted && IsSigId(cfg, id) ==> Budget(cfg, seen') + 8 <= Budget(cfg, seen))
  {
    var (seen', granted) := Forward(seen, id, now);
    ForwardLeft(seen, id, now);
    SumMonotone(SigLeft(cfg, seen'), SigLeft(cfg, seen));
    if granted && IsSigId(cfg, id) {
      var w :| w in cfg.witnesses && id == SigMsgId(cfg.txHash, w);
      SumStrict(SigLeft(cfg, seen'), SigLeft(cfg, seen), w);
    }
  }

  lemma BudgetsUpdate(cfg: Config, nodes: map<PubKey, Seen>, n: PubKey, seen: Seen)
    requires n in nodes
    ensures Sum(Budgets(cfg, nodes[n := seen])) == Sum(Budgets(cfg, nodes)) - Budget(cfg, nodes[n]) + Budget(cfg, seen)
  {
    assert Budgets(cfg, nodes[n := seen]) == Budgets(cfg, nodes)[n := Budget(cfg, seen)];
    SumUpdate(Budgets(cfg, nodes), n, Budget(cfg, seen));
  }

  /** A response uses up at least as much budget as it sends packets. */
  lemma ResponsePaid(cfg: Config, me: PubKey, accepts: bool, seen: Seen, pkt: Packet, now: Time, peers: set<PubKey>,
                     seen': Seen, out: Sends)
    requires Belongs(cfg, pkt) && Responds(me, accepts, false, seen, pkt, now, peers, seen', out)
    requires accepts ==> me in cfg.witnesses
    ensures |out| + Budget(cfg, seen') <= Budget(cfg, seen)
    ensures forall s :: s in out ==> Belongs(cfg, s.1) && s.0 in peers
  {
    BudgetForward(cfg, seen, pkt.msgId, now);
    if pkt.payload.TxVerifyMsg? && out != [] {
      var sigPkt, first, second :| out == first + second
        && IsSigPacket(sigPkt, pkt.payload.tx.hash, me)
        && IsSigSend(first, sigPkt, pkt.payload.tx.from, peers) && IsBroadcast(second, pkt, peers);
    } else if pkt.payload.WitnessSigMsg? {
      assert pkt.msgId == SigMsgId(cfg.txHash, pkt.payload.sig.signer);
    }
  }

  predicate Own(step: NetStep) {
    !step.Other?
  }

  /** A signature that is kept leaves the network, and at most turns into the claim it was counted for. */
  lemma AbsorbDecreases(cfg: Config, s: Net, step: NetStep)
    requires WellFormed(cfg, s) && step.Deliver? && Enabled(cfg, s, step)
    requires Absorbs(cfg, s, step.dest, step.pkt, step.stale)
    ensures WellFormed(cfg, Next(cfg, s, step)) && Potential(cfg, Next(cfg, s, step)) < Potential(cfg, s)
  {
    assert step.out == [];
    assert |s.inflight - multiset{(step.dest, step.pkt)} + multiset(step.out)| == |s.inflight| - 1;
  }

  lemma DeliverDecreases(cfg: Config, s: Net, step: NetStep)
    requires WellFormed(cfg, s) && step.Deliver? && Enabled(cfg, s, step)
    ensures WellFormed(cfg, Next(cfg, s, step)) && Potential(cfg, Next(cfg, s, step)) < Potential(cfg, s)
  {
    var Deliver(dest, pkt, now, peers, accepts, stale, out) := step;
    if Absorbs(cfg, s, dest, pkt, stale) {
      AbsorbDecreases(cfg, s, step);
    } else {
      var s' := Next(cfg, s, step);
      var seen' := SeenAfter(cfg, s, dest, pkt, now, stale);
      assert |s.inflight - multiset{(dest, pkt)} + multiset(out)| == |s.inflight| - 1 + |out|;
      assert Belongs(cfg, (dest, pkt).1);
      ResponsePaid(cfg, dest, accepts, s.nodes[dest], pkt, now, peers, seen', out);
      BudgetsUpdate(cfg, s.nodes, dest, seen');
      forall m | m in s'.inflight ensures m in s.inflight || m in out {
      }
    }
  }

  lemma ConfirmDecreases(cfg: Config, s: Net, step: NetStep)
    requires WellFormed(cfg, s) && step.RunConfirm? && Enabled(cfg, s, step)
    ensures WellFormed(cfg, Next(cfg, s, step)) && Potential(cfg, Next(cfg, s, step)) < Potential(cfg, s)
  {
    var s' := Next(cfg, s, step);
    assert |s'.inflight| == |s.inflight| + |step.out|;
    forall m | m in s'.inflight ensures m in s.inflight || m in step.out {
    }
  }

  /** Every step of this transaction's traffic lowers the potential; nothing else the nodes do raises it. */
  lemma StepDecreases(cfg: Config, s: Net, step: NetStep)
    requires WellFormed(cfg, s) && Enabled(cfg, s, step)
    ensures WellFormed(cfg, Next(cfg, s, step))
    ensures Potential(cfg, Next(cfg, s, step)) + (if Own(step) then 1 else 0) <= Potential(cfg, s)
  {
    match step
    case Deliver(_, _, _, _, _, _, _) =>
      DeliverDecreases(cfg, s, step);
    case Lose(dest, pkt) =>
      assert |s.inflight - multiset{(dest, pkt)}| == |s.inflight| - 1;
    case Remove =>
    case RunConfirm(_, _, _) =>
      ConfirmDecreases(cfg, s, step);
    case Other(node, id, now) =>
      BudgetForward(cfg, s.nodes[node], id, now);
      BudgetsUpdate(cfg, s.nodes, node, Forward(s.nodes[node], id, now).0);
  }

  ghost predicate IsRun(cfg: Config, s: Net, steps: seq<NetStep>)
    decreases |steps|
  {
    steps != [] ==> Enabled(cfg, s, steps[0]) && IsRun(cfg, Next(cfg, s, steps[0]), steps[1..])
  }

  function OwnSteps(steps: seq<NetStep>): nat {
    if steps == [] then 0 else (if Own(steps[0]) then 1 else 0) + OwnSteps(steps[1..])
  }

  /** No run has more deliveries and confirmations than the potential it starts with. */
  lemma {:induction false} RunBounded(cfg: Config, s: Net, steps: seq<NetStep>)
    requires WellFormed(cfg, s) && IsRun(cfg, s, steps)
    ensures OwnSteps(steps) <= Potential(cfg, s)
    decreases |steps|
  {
    if steps != [] {
      StepDecreases(cfg, s, steps[0]);
      RunBounded(cfg, Next(cfg, s, steps[0]), steps[1..]);
    }
  }

  /** Right after sending: the announcement in flight, and a fresh entry. */
  ghost predicate JustSent(cfg: Config, s: Net) {
    && s.open && s.collected == 0 && s.claims == 0 && s.tasks == 0
    && exists tx: Transaction, snapshot, out, peers ::
         && tx.hash == cfg.txHash && Announces(tx, snapshot, out, peers)
         && peers <= s.nodes.Keys && s.inflight == multiset(out)
  }

  lemma JustSentInFlight(cfg: Config, s: Net)
    requires JustSent(cfg, s)
    ensures WellFormed(cfg, s) && |s.inflight| <= 16
  {
    var tx: Transaction, snapshot, out, peers :|
      && tx.hash == cfg.txHash && Announces(tx, snapshot, out, peers)
      && peers <= s.nodes.Keys && s.inflight == multiset(out);
    var first, second :|
      && out == first + second
      && IsBroadcast(first, Packet(tx.hash, NonceLockMsg(tx.from, tx.nonce)), peers)
      && IsBroadcast(second, Packet(tx.hash, TxVerifyMsg(tx, Some(snapshot))), peers);
    assert |s.inflight| == |out|;
    forall m | m in s.inflight ensures Belongs(cfg, m.1) && m.0 in s.nodes {
      assert m in first + second;
    }
  }

  /** What one node can still send is bounded by the number of witnesses. */
  function NodeBound(cfg: Config): nat {
    96 + 48 * |cfg.witnesses|
  }

  lemma BudgetBound(cfg: Config, seen: Seen)
    ensures Budget(cfg, seen) <= NodeBound(cfg)
  {
    var m := SigLeft(cfg, seen);
    SumBound(m, GOSSIP_HOPS);
    assert m.Keys == cfg.witnesses;
    assert |m| == |cfg.witnesses|;
  }

  lemma BudgetsBound(cfg: Config, nodes: map<PubKey, Seen>)
    ensures Sum(Budgets(cfg, nodes)) <= |nodes| * NodeBound(cfg)
  {
    var budgets := Budgets(cfg, nodes);
    forall n | n in budgets ensures budgets[n] <= NodeBound(cfg) {
      BudgetBound(cfg, nodes[n]);
    }
    SumBound(budgets, NodeBound(cfg));
    assert budgets.Keys == nodes.Keys;
    assert |budgets| == |nodes|;
  }

  /**
   The traffic of one transaction dies out: among N nodes with W witnesses it takes at most
   26 + N (96 + 48 W) deliveries, losses, removals and confirmations, whatever else the nodes are doing.
   */
  lemma {:induction false} TrafficDiesOut(cfg: Config, s: Net, steps: seq<NetStep>)
    requires JustSent(cfg, s) && IsRun(cfg, s, steps)
    ensures OwnSteps(steps) <= 26 + |s.nodes| * NodeBound(cfg)
  {
    JustSentInFlight(cfg, s);
    BudgetsBound(cfg, s.nodes);
    RunBounded(cfg, s, steps);
  }

  /** Something is in flight, or a confirmation is claimed or started and has not run. */
  ghost predicate Outstanding(s: Net) {
    s.inflight != multiset{} || s.claims > 0 || s.tasks > 0
  }

  /** While anything is outstanding, the traffic can go on without losing a packet. */
  lemma NotStuck(cfg: Config, s: Net) returns (step: NetStep)
    requires WellFormed(cfg, s) && Outstanding(s)
    ensures Own(step) && !step.Lose? && Enabled(cfg, s, step)
  {
    if s.tasks > 0 {
      var tx := Transaction(cfg.txHash, 0, 0, cfg.originator, cfg.originator, 0, NoSignature(), [], [], 0, Confirmed);
      step := RunConfirm(Packet(cfg.txHash, ConfirmedMsg(tx)), {}, []);
    } else if s.claims > 0 {
      step := Remove;
    } else {
      var m :| m in s.inflight;
      step := Deliver(m.0, m.1, 0, {}, false, false, []);
    }
  }

  lemma {:induction false} RunWellFormed(cfg: Config, s: Net, steps: seq<NetStep>)
    requires WellFormed(cfg, s) && IsRun(cfg, s, steps)
    ensures WellFormed(cfg, After(cfg, s, steps))
    decreases |steps|
  {
    if steps != [] {
      StepDecreases(cfg, s, steps[0]);
      RunWellFormed(cfg, Next(cfg, s, steps[0]), steps[1..]);
    }
  }

  /** So no run that starts with sending gets stuck before everything is delivered and confirmed. */
  lemma RunNotStuck(cfg: Config, s: Net, steps: seq<NetStep>) returns (step: NetStep)
    requires JustSent(cfg, s) && IsRun(cfg, s, steps)
    requires Outstanding(After(cfg, s, steps))
    ensures Own(step) && !step.Lose? && Enabled(cfg, After(cfg, s, steps), step)
  {
    JustSentInFlight(cfg, s);
    RunWellFormed(cfg, s, steps);
    step := NotStuck(cfg, After(cfg, s, steps));
  }
}
