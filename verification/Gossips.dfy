/** The forwarding budget a node keeps per message id, and the choice of peers to forward to. */
module Gossips {
  import opened Bytes
  import opened Types

  const GOSSIP_FANOUT: nat := 8
  const GOSSIP_HOPS: nat := 6
  const GOSSIP_MSG_TTL: nat := 600

  datatype GossipMsg = GossipMsg(seenAt: Time, hops: nat)

  type Seen = map<Hash, GossipMsg>

  function Hops(seen: Seen, id: Hash): nat {
    if id in seen then seen[id].hops else 0
  }

  /** How many more times this id will be forwarded. */
  function Left(seen: Seen, id: Hash): nat {
    if Hops(seen, id) < GOSSIP_HOPS then GOSSIP_HOPS - Hops(seen, id) else 0
  }

  /** One query: whether to forward, and the cache afterwards. */
  function Forward(seen: Seen, id: Hash, now: Time): (Seen, bool) {
    if id in seen then
      if seen[id].hops >= GOSSIP_HOPS then (seen, false) else (seen[id := seen[id].(hops := seen[id].hops + 1)], true)
    else
      (seen[id := GossipMsg(now, 1)], true)
  }

  /** One pass of the cleanup: the entries older than the lifetime go, the others stay. */
  function Expire(seen: Seen, now: Time): Seen {
    map id | id in seen && !(now - seen[id].seenAt > GOSSIP_MSG_TTL) :: seen[id]
  }

  class Gossip {
    var seen: Seen

    constructor ()
      ensures seen == map[]
    {
      seen := map[];
    }

    method ShouldForward(msgId: Hash, now: Time) returns (should: bool, hops: nat)
      modifies this
      ensures (seen, should) == Forward(old(seen), msgId, now)
      ensures hops == Hops(seen, msgId)
    {
      if msgId in seen {
        var msg := seen[msgId];
        if msg.hops >= GOSSIP_HOPS {
          return false, msg.hops;
        }
        seen := seen[msgId := msg.(hops := msg.hops + 1)];
        return true, msg.hops + 1;
      }
      seen := seen[msgId := GossipMsg(now, 1)];
      return true, 1;
    }

    /** Deletes while walking the map. */
    method CleanupPass(now: Time)
      modifies this
      ensures seen == Expire(old(seen), now)
    {
      var rest := seen.Keys;
      while rest != {}
        invariant rest <= old(seen).Keys
        invariant forall id :: id in seen <==> id in old(seen) && (id in rest || id in Expire(old(seen), now))
        invariant forall id :: id in seen ==> seen[id] == old(seen)[id]
        decreases rest
      {
        var id :| id in rest;
        rest := rest - {id};
        if now - seen[id].seenAt > GOSSIP_MSG_TTL {
          seen := seen - {id};
        }
      }
    }
  }

  /** Any `n` of the peers, or all if there are no more, at different positions, so different peers stay different. */
  method SelectPeers<P(==)>(peers: seq<P>, n: nat) returns (selected: seq<P>)
    requires forall i, j :: 0 <= i < j < |peers| ==> peers[i] != peers[j]
    ensures |selected| == if n < |peers| then n else |peers|
    ensures forall p :: p in selected ==> p in peers
    ensures forall i, j :: 0 <= i < j < |selected| ==> selected[i] != selected[j]
  {
    if n >= |peers| {
      return peers;
    }
    var shuffled := peers;
    var i := |shuffled| - 1;
    while i > 0
      invariant -1 <= i < |shuffled| == |peers|
      invariant forall p :: p in shuffled ==> p in peers
      invariant forall i, j :: 0 <= i < j < |shuffled| ==> shuffled[i] != shuffled[j]
    {
      var j :| 0 <= j <= i;
      shuffled := shuffled[i := shuffled[j]][j := shuffled[i]];
      i := i - 1;
    }
    selected := shuffled[..n];
  }

  // ---- Traces ---------------------------------------------------------------------------------

  datatype GossipEvent = Query(id: Hash, at: Time) | Cleanup(at: Time)

  /** The cache before event `n`. */
  function Before(seen: Seen, events: seq<GossipEvent>, n: nat): Seen
    requires n <= |events|
  {
    if n == 0 then seen else
      match events[n - 1]
      case Query(id, at) => Forward(Before(seen, events, n - 1), id, at).0
      case Cleanup(at) => Expire(Before(seen, events, n - 1), at)
  }

  /** The answer to query `n`. */
  predicate Answer(seen: Seen, events: seq<GossipEvent>, n: nat)
    requires n < |events| && events[n].Query?
  {
    Forward(Before(seen, events, n), events[n].id, events[n].at).1
  }

  /** No cleanup pass removes this id. */
  ghost predicate Kept(seen: Seen, events: seq<GossipEvent>, id: Hash) {
    forall n :: 0 <= n < |events| && events[n].Cleanup? && id in Before(seen, events, n) ==>
      id in Before(seen, events, n + 1)
  }

  /** How many of the first `n` events ask about this id. */
  function Asked(events: seq<GossipEvent>, n: nat, id: Hash): nat
    requires n <= |events|
  {
    if n == 0 then 0 else Asked(events, n - 1, id) + if events[n - 1].Query? && events[n - 1].id == id then 1 else 0
  }

  /** How many of those were answered with yes. */
  function Granted(seen: Seen, events: seq<GossipEvent>, n: nat, id: Hash): nat
    requires n <= |events|
  {
    if n == 0 then 0 else
      Granted(seen, events, n - 1, id) +
      if events[n - 1].Query? && events[n - 1].id == id && Answer(seen, events, n - 1) then 1 else 0
  }

  function Min(a: nat, b: nat): nat {
    if a < b then a else b
  }

  /** Between removals an id is granted its remaining budget and no more, whatever happens to other ids. */
  lemma {:induction false} GrantedExactly(seen: Seen, events: seq<GossipEvent>, id: Hash, n: nat)
    requires n <= |events| && Kept(seen, events, id)
    ensures Granted(seen, events, n, id) == Min(Asked(events, n, id), Left(seen, id))
    ensures Left(Before(seen, events, n), id) == Left(seen, id) - Granted(seen, events, n, id)
    decreases n
  {
    if n > 0 {
      GrantedExactly(seen, events, id, n - 1);
      if events[n - 1].Cleanup? && id in Before(seen, events, n - 1) {
        assert id in Before(seen, events, n);
      }
    }
  }

  /** Each query is granted exactly if fewer than the budget were asked before it: all yes, then all no. */
  lemma AnswersInOrder(seen: Seen, events: seq<GossipEvent>, n: nat)
    requires n < |events| && events[n].Query? && Kept(seen, events, events[n].id)
    ensures Answer(seen, events, n) <==> Asked(events, n, events[n].id) < Left(seen, events[n].id)
  {
    GrantedExactly(seen, events, events[n].id, n);
  }

  /** An id that is new to the cache is forwarded for its first six queries. */
  lemma FreshIdBudget(seen: Seen, events: seq<GossipEvent>, id: Hash)
    requires id !in seen && Kept(seen, events, id)
    ensures Granted(seen, events, |events|, id) == Min(Asked(events, |events|, id), 6)
  {
    GrantedExactly(seen, events, id, |events|);
  }

  /** No cleanup pass between events `f` and `n` comes later than 600 seconds after `t`. */
  ghost predicate NoLatePass(events: seq<GossipEvent>, f: nat, n: nat, t: Time) {
    forall k :: f < k < n && k < |events| && events[k].Cleanup? ==> events[k].at <= t + 600
  }

  /** How many of the events from `f` on, up to event `n`, ask about this id. */
  function AskedSince(events: seq<GossipEvent>, f: nat, n: nat, id: Hash): nat
    requires f <= n <= |events|
    decreases n
  {
    if n == f then 0 else
      AskedSince(events, f, n - 1, id) + if events[n - 1].Query? && events[n - 1].id == id then 1 else 0
  }

  /**
   The life of an entry. From the query at time `t` that finds the id new, it is in the cache with that time and
   counts the queries up to six; exactly the first six of these, the new one included, are answered with yes.
   */
  lemma {:induction false} EntrySince(seen: Seen, events: seq<GossipEvent>, id: Hash, t: Time, f: nat, n: nat)
    requires f < n <= |events| && events[f] == Query(id, t) && id !in Before(seen, events, f)
    requires NoLatePass(events, f, n, t)
    ensures var asked := AskedSince(events, f, n, id);
            && id in Before(seen, events, n) && Before(seen, events, n)[id] == GossipMsg(t, Min(asked, 6))
            && Granted(seen, events, n, id) - Granted(seen, events, f, id) == Min(asked, 6)
    decreases n
  {
    if n > f + 1 {
      EntrySince(seen, events, id, t, f, n - 1);
    }
  }

  /** A cleanup pass keeps the entry exactly up to 600 seconds after the query that made it. */
  lemma PassKeepsIff(seen: Seen, events: seq<GossipEvent>, id: Hash, t: Time, f: nat, n: nat)
    requires f < n < |events| && events[f] == Query(id, t) && id !in Before(seen, events, f)
    requires NoLatePass(events, f, n, t) && events[n].Cleanup?
    ensures id in Before(seen, events, n + 1) <==> events[n].at <= t + 600
  {
    EntrySince(seen, events, id, t, f, n);
  }

  /** So an id that nobody asked about before is kept, and its budget is six, as long as no pass comes too late. */
  lemma KeptTenMinutes(seen: Seen, events: seq<GossipEvent>, id: Hash, t: Time, f: nat)
    requires id !in seen && f < |events| && events[f] == Query(id, t)
    requires forall k :: 0 <= k < f ==> !(events[k].Query? && events[k].id == id)
    requires NoLatePass(events, f, |events|, t)
    ensures Kept(seen, events, id)
    ensures Granted(seen, events, |events|, id) == Min(Asked(events, |events|, id), 6)
  {
    NotAskedAbsent(seen, events, id, f);
    forall n | 0 <= n < |events| && events[n].Cleanup? && id in Before(seen, events, n)
      ensures id in Before(seen, events, n + 1)
    {
      if n < f {
        NotAskedAbsent(seen, events, id, n);
      } else {
        EntrySince(seen, events, id, t, f, n + 1);
      }
    }
    FreshIdBudget(seen, events, id);
  }

  lemma {:induction false} NotAskedAbsent(seen: Seen, events: seq<GossipEvent>, id: Hash, n: nat)
    requires n <= |events| && id !in seen
    requires forall k :: 0 <= k < n ==> !(events[k].Query? && events[k].id == id)
    ensures id !in Before(seen, events, n)
    decreases n
  {
    if n > 0 {
      NotAskedAbsent(seen, events, id, n - 1);
    }
  }

  /** Queries about other ids leave the budget of this one untouched. */
  lemma {:induction false} OtherIdsKeepBudget(seen: Seen, events: seq<GossipEvent>, id: Hash, n: nat)
    requires n <= |events| && forall k :: 0 <= k < n ==> events[k].Query? && events[k].id != id
    ensures Left(Before(seen, events, n), id) == Left(seen, id)
    decreases n
  {
    if n > 0 {
      OtherIdsKeepBudget(seen, events, id, n - 1);
    }
  }

  /** After a pass that comes later, the next query finds the id new: it is granted, and a new entry begins. */
  lemma {:induction false} NewBudgetAfterPass(
      seen: Seen, events: seq<GossipEvent>, id: Hash, t: Time, f: nat, n: nat, m: nat)
    requires f < n < m < |events| && events[f] == Query(id, t) && id !in Before(seen, events, f)
    requires NoLatePass(events, f, n, t) && events[n].Cleanup? && events[n].at > t + 600
    requires events[m].Query? && events[m].id == id
    requires forall k :: n < k < m ==> !(events[k].Query? && events[k].id == id)
    ensures id !in Before(seen, events, m) && Answer(seen, events, m)
    decreases m
  {
    PassKeepsIff(seen, events, id, t, f, n);
    AbsentUntilAsked(seen, events, id, n + 1, m);
  }

  lemma {:induction false} AbsentUntilAsked(seen: Seen, events: seq<GossipEvent>, id: Hash, n: nat, m: nat)
    requires n <= m <= |events| && id !in Before(seen, events, n)
    requires forall k :: n <= k < m ==> !(events[k].Query? && events[k].id == id)
    ensures id !in Before(seen, events, m)
    decreases m
  {
    if n < m {
      AbsentUntilAsked(seen, events, id, n, m - 1);
    }
  }
}
