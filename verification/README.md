# CDML ledger: a verified model

This project models the core of a CDML node and proves what it guarantees:

- **The transaction graph** (`Graph`, `Search`, `Insertion`, `Ordering`, `Depth`, `Dag`). Edges run from a
  transaction to its parents. Insertion is guarded by a depth-limited search with a shared visited set.
  The search is sound on every graph, and exact whenever no path of distinct nodes with parents is longer than
  201; the guard keeps graphs of n keys acyclic exactly for n up to 201, and on graphs of any size refuses exactly
  the cycles of up to three nodes for certain. Fresh transactions are safe at any size, and repeating a call
  changes nothing on any graph. What the depth estimate computes, and when it is the longest
  path, is stated exactly.
- **The ledger** (`Amounts`, `Ledgers`, `Transfers`, `Replicas`, `SenderLog`, `Processor`). Building, witnessing,
  confirming and applying transactions over balances, sequences, a per-sender log, applied marks and a reward
  pool. Runs of one operation after another conserve the supply, credit each gossiped confirmation once, and keep
  the log gapless; log and balances agree after a run exactly if every confirmation continued the log.
- **Overlapping operations** (`Races`, `Overlaps`, `Deliveries`). Confirmations and gossiped credits with every access
  to the store as a step of its own. They create money under some schedule exactly if somebody pays out of an
  account that another one pays out of or credits; credits come out as if made one by one exactly if no two share
  a hash or a receiver.
- **The byte store** (`Bytes`, `Keys`, `Store`, `NonceLocks`). Everything is kept in one flat byte-keyed map,
  which is proved to refine separate typed maps.
- **The quorum protocol** (`Crypto`, `Quorum`, `Pending`, `Arrivals`). Witness signatures are collected by concurrent
  handlers; the model steps one critical section at a time, in every interleaving. Each transaction is handed to
  confirmation at most once, and exactly if three signatures arrive for it.
- **Gossip** (`Gossips`, `Packets`, `Traffic`, `Nodes`). Every node has a forwarding budget per message id.
  The traffic of one transaction is proved to die out within a bound given by the number of nodes and witnesses.

Objects the source updates in place are classes, and its loops are loops. Each such method is proved
against a function of the old state, and the theorems are lemmas about those functions: `Find` for the search,
`TryAdd` and `Advance` for insertion, `DepthFrom` for the depth, `Build`, `Verify`, `Confirm` and `Apply` for
transactions, `Forward` and `Expire` for the gossip cache, `Collect` for the pending entry.

Assumptions, stated where they are used:

- The hash and the signature scheme are parameters (`Crypto.Scheme`). `Signs` says that what a key pair signs
  verifies. No property of the hash is assumed.
- The JSON encoding of stored values is a parameter (`Store.Codec`) with a round-trip assumption.
- Time, nonces and the choice of peers are inputs or arbitrary choices. Time is counted in whole seconds.
- The source takes no lock around the store accesses of one operation. Building, verifying, confirming, crediting
  and locking a nonce are nevertheless single steps, made one after another, in `Transfers`, `Replicas`,
  `SenderLog`, `Store`, `Processor` and `Nodes`. `Races`, `Overlaps` and `Deliveries` drop this for confirming and
  crediting, `NonceLocks` for nonce locks, `Pending` and `Traffic` for collecting signatures.
- Database errors do not occur.

Where the code does not do what its comments or design promise, the model follows the code:

- The cycle check misses the cycle that closes a chain of more than 201 keys (`Insertion.ClosingEdgeAccepted`); it
  works for all graphs of n keys exactly up to n = 201 (`Insertion.GuardBound`). Past that size it also misses cycles
  of only four nodes, because the search hides the short way back from itself (`Insertion.ShortCycleAccepted`); it
  works for all cycles of a given length exactly up to three nodes (`Insertion.GuardLength`).
- `Depth` is described as the maximal depth, but it can be less (`Dag.DepthNotLongest`) and depends on the order in
  which parents are stored (`Dag.DepthDependsOnOrder`); `Depth.DepthLongestIff` says exactly when it is the maximum.
- A transfer to oneself creates money (`Transfers.SelfTransferCreatesMoney`, exactly when: `ConfirmConservesIff`).
- A confirmation that comes back to its originator is credited again (`Transfers.ReturningConfirmationCreditsTwice`,
  exactly when: `ConfirmThenApply`).
- A witness's balance check accepts anything once amount plus bond exceeds the maximum
  (`Transfers.UncoveredMaximumAccepted`, exactly when: `BalanceCheckWorksIff`).
- Two transactions built before either is confirmed share a sequence, and the second overwrites the first in the log
  (`SenderLog.SharedSequenceDisagrees`, exactly when: `RunAgreesIff`).
- Two confirmations of one account that overlap pay out of the same balance (`Overlaps.OverlapCreatesMoney`, exactly
  when: `NeverCreatesIff`, `TwoTransfersIff`). If two covered transfers the graph accepts are confirmed in lockstep,
  the first bond is lost, and whatever the first did to an account of the second (`Overlaps.LockstepRace`).
- A gossip credit and a confirmation of the same account that overlap undo one another
  (`Overlaps.CreditUndoesConfirm`, `Overlaps.ConfirmUndoesCredit`).
- Overlapping deliveries of one hash are credited twice, and of two to one receiver one can be lost though both are
  marked (`Deliveries.SameHashCreditsTwice`, `Deliveries.SameReceiverLosesCredit`, exactly when: `AlwaysSerialIff`).
- Signature packets have ids made of transaction and witness, but different pairs can share one, and then its budget
  (`Packets.SigMsgIdsMeet`).
- Two lock requests for one nonce that overlap are both granted (`NonceLocks.OverlappingRequestsBothGranted`).
- One bad signature among the first three loses the transaction (`Pending.BadSignatureLosesQuorum`, exactly when:
  `QuorumDecidedByFirstThree`).

## Model

| member | source | states |
|---|---|---|
| Insertion.AddOutcomeExact | internal/protocol/dag.go:25-49 | If nothing leads back to the tail, or no path of distinct nodes with parents from the head is longer than 201, an edge is refused as a cycle exactly when its head is, or reaches, its tail, and as a duplicate exactly when it is present; cyclic graphs of any size included |
| Insertion.AddKeepsAcyclic | internal/protocol/dag.go:25-49 | Under the same condition, on an acyclic graph exactly the edges that would close a cycle are refused, so it stays acyclic |
| Insertion.RefusalSound | internal/protocol/dag.go:36-40 | At any size, an edge refused as a cycle would have closed one |
| Insertion.GuardBound | internal/protocol/dag.go:12-52 | All acyclic graphs with n keys stay acyclic under every insertion if and only if n is at most 201 |
| Insertion.ClosingEdgeAccepted | internal/protocol/dag.go:51-54 | Every chain with more than 201 keys accepts the edge that closes it into a cycle |
| Insertion.ShortCyclesRefused | internal/protocol/dag.go:25-65 | On every graph, cyclic or not and of any size, an edge that would close a cycle of at most three nodes is refused |
| Insertion.ShortCycleAccepted | internal/protocol/dag.go:51-65 | On a long chain with one shortcut an edge that closes a cycle of four nodes, or of any larger number, is accepted: the search marks the node at its depth limit on the long way and skips it on the short one |
| Insertion.GuardLength | internal/protocol/dag.go:25-65 | On acyclic graphs of any size all edges that close a cycle over a walk of length n are refused if and only if n is at most 2 |
| Insertion.AddAllAcyclic | internal/protocol/dag.go:25-49 | Any sequence of insertions that ends with at most 201 keys keeps the graph acyclic |
| Search.FindSound | internal/protocol/dag.go:51-65 | From any visited set and depth, a reported ancestor is reachable |
| Search.FindComplete | internal/protocol/dag.go:51-65 | Completeness of the truncated search: everything it visited is fully explored, because the nodes it is inside of form a path of distinct nodes with parents, and those are short |
| Search.FindExactShortPaths | internal/protocol/dag.go:51-65 | The search is exact on graphs of any size, cyclic or not, in which no path of distinct nodes with parents from its start is longer than 201 |
| Search.FindExactInRegion | internal/protocol/dag.go:51-65 | In particular if the nodes with parents reachable from its start lie in a closed region of at most 201 |
| Search.FindExact | internal/protocol/dag.go:51-65 | And on every graph with at most 201 keys |
| Search.ChainEndMissed | internal/protocol/dag.go:52 | Beyond that the end of a chain is missed |
| Search.FindSame | internal/protocol/dag.go:51-65 | For a search from another node, edges out of the target change neither the answer nor what is visited |
| Insertion.AdvanceAddsPrefix | internal/protocol/dag.go:68-75 | The edges added are those to a prefix of the parents: all on success, those before the first refused one on failure |
| Insertion.AdvanceFresh | internal/protocol/dag.go:68-75 | For a transaction that is nobody's parent and not its own, every edge is accepted and acyclicity kept, at any graph size |
| Insertion.AdvanceAllAcyclic | internal/protocol/dag.go:68-75 | So a run of fresh transactions never creates a cycle |
| Insertion.AdvanceIdempotent | internal/protocol/dag.go:68-75 | Repeating a call changes nothing and answers the same: at any size, on cyclic graphs too, after success and after failure |
| Insertion.AdvanceTips | internal/protocol/dag.go:68-94 | A fresh transaction with parents replaces exactly the tips it names |
| Insertion.TipsCover | internal/protocol/dag.go:77-105 | In an acyclic graph every node is a tip or an ancestor of one |
| Insertion.TipExists | internal/protocol/dag.go:77-105 | A non-empty acyclic graph has a tip |
| Ordering.CompareHashes | internal/protocol/dag.go:96-103 | The byte loop decides the lexicographic order |
| Ordering.LessOrder | internal/protocol/dag.go:96-103 | That order is strict and total |
| Ordering.LessIsLexicographic | internal/protocol/dag.go:96-103 | It is the lexicographic order: the smaller hash has the smaller byte where the two first differ |
| Ordering.SortedUnique | internal/protocol/dag.go:89-104 | A set of hashes has one sorted listing, whatever order the map was walked in |
| Ordering.SortHashes | internal/protocol/dag.go:96-103 | Sorting distinct hashes gives that listing |
| Dag.TipListUnique | internal/protocol/dag.go:78-105 | Any two tip lists of a graph are equal |
| Dag.DagManager.constructor | internal/protocol/dag.go:20-22 | A new graph is empty |
| Dag.DagManager.AddEdge | internal/protocol/dag.go:25-49 | Changes the edges and answers as `TryAdd` |
| Dag.DagManager.IsAncestorLocked | internal/protocol/dag.go:51-65 | Answers and marks nodes as `Find`, and terminates on cyclic graphs |
| Dag.DagManager.AdvanceTip | internal/protocol/dag.go:68-75 | Changes the edges and answers as `Advance` |
| Dag.DagManager.CurrentTips | internal/protocol/dag.go:78-105 | Returns the one sorted list of keys that are nobody's parent |
| Dag.DagManager.CollectParents | internal/protocol/dag.go:82-87 | Collects exactly the nodes some key names as a parent |
| Dag.DagManager.Depth | internal/protocol/dag.go:108-122 | Returns the largest estimate over all keys, 0 for an empty graph |
| Dag.DagManager.DepthSearch | internal/protocol/dag.go:124-137 | Estimates and marks as `DepthFrom`, and terminates on cyclic graphs |
| Depth.DepthAttained | internal/protocol/dag.go:107-137 | The depth is the length of a real path, so at most the longest |
| Depth.DepthCoversDistances | internal/protocol/dag.go:107-137 | The depth is at least the distance between any two connected nodes |
| Depth.DepthIsFirst | internal/protocol/dag.go:107-137 | On every acyclic graph the depth is one more than the longest walk that takes, at each node, the first stored parent leading to its end, over ends with parents |
| Depth.DepthLongestIff | internal/protocol/dag.go:107-137 | The depth is the longest path exactly if the graph is acyclic and some longest path is, up to its last edge, such a walk (or there is no edge) |
| Depth.DepthLongestWhenOneGraded | internal/protocol/dag.go:107-137 | Whatever the order of parents, it is the longest path if for one longest path all walks to its last node with parents are equally long |
| Depth.DepthLongestWhenGraded | internal/protocol/dag.go:107-137 | In particular when that holds for all pairs of nodes |
| Depth.SingleParentGraded | internal/protocol/dag.go:124-137 | That holds in particular when every transaction names at most one parent |
| Dag.DepthNotLongest | internal/protocol/dag.go:107-137 | A graph of depth 2 with a path of length 3 |
| Dag.DepthDependsOnOrder | internal/protocol/dag.go:130-135 | The same edges stored in another order have another depth |
| Amounts.SafeAdd | internal/core/amount.go:4-12 | Succeeds exactly if the sum is within the maximum, and distinguishes its errors |
| Amounts.SafeSub | internal/core/amount.go:15-20 | Succeeds exactly if there is no underflow |
| Amounts.ValidateAmount | internal/core/amount.go:23-31 | Accepts exactly the positive amounts within the maximum |
| Amounts.BondAmount | internal/core/amount.go:34-44 | The bond is a thousandth, rounded down |
| Bytes.PutUint64 | internal/storage/chain.go:28-29 | Writes the big-endian bytes of a word and leaves the rest of the buffer |
| Bytes.U64RoundTrip | internal/storage/chain.go:19-31 | Stored words read back unchanged |
| Bytes.EncodeDecode | internal/storage/chain.go:19-31 | Every 8 bytes are the encoding of the number they decode to |
| Keys.EncodeInjective | internal/storage/chain.go:148-175 | No two store keys of any kind share their bytes, including the fixed names and the snapshot and nonce-lock keys |
| Keys.KeyLetters | internal/storage/chain.go:148-175 | The letters and texts the keys start with |
| Keys.FillTxKey | internal/storage/chain.go:162-168 | The filled buffer is the transaction key |
| Keys.FillNonceLockKey | internal/storage/snapshot.go:112-120 | The shift loop spells the nonce in big-endian |
| Store.WriteRefines | internal/storage/db.go:56-60 | A flat write under one key is the typed write to one map and leaves all others untouched |
| Store.DeleteRefines | internal/storage/db.go:76-80 | The same for a deletion |
| Store.BatchRefines | internal/storage/chain.go:86-109 | The four flat writes of a confirmation are the four typed ones |
| Store.ViewUnique | internal/storage/chain.go:19-175 | A flat store holds one typed state only |
| Store.ChainStore.GetBalance | internal/storage/chain.go:19-25 | Reads the typed balance, 0 if there is none |
| Store.ChainStore.SaveBalance | internal/storage/chain.go:27-31 | Sets one balance and nothing else |
| Store.ChainStore.HasBalance | internal/storage/chain.go:33-36 | Tells whether a balance is recorded |
| Store.ChainStore.GetLatestSeq | internal/storage/chain.go:40-46 | Reads the typed sequence, 0 if there is none |
| Store.ChainStore.SaveLatestSeq | internal/storage/chain.go:48-52 | Sets one sequence and nothing else |
| Store.ChainStore.SaveTx | internal/storage/chain.go:56-62 | Stores one transaction under its sender and sequence |
| Store.ChainStore.GetTx | internal/storage/chain.go:64-74 | Reads the stored transaction |
| Store.ChainStore.ConfirmTxBatch | internal/storage/chain.go:86-109 | Writes both balances, the sequence and the transaction together |
| Store.ChainStore.IsConfirmedTxApplied | internal/storage/chain.go:113-116 | Tells whether the hash is marked |
| Store.ChainStore.MarkConfirmedTxApplied | internal/storage/chain.go:118-120 | Marks one hash and nothing else |
| Store.ChainStore.GetRewardPool | internal/storage/chain.go:124-130 | Reads the pool, 0 if unset |
| Store.ChainStore.AccumulateBond | internal/storage/chain.go:132-144 | Adds the bond, or reports the overflow and leaves the store alone |
| Store.SnapshotStore.SaveSnapshot | internal/storage/snapshot.go:16-22 | Sets one snapshot and nothing else |
| Store.SnapshotStore.GetLatest | internal/storage/snapshot.go:24-34 | Reads the stored snapshot |
| Store.WitnessStore.SaveActiveWitnesses | internal/storage/snapshot.go:50-56 | Sets the witness list and nothing else |
| Store.WitnessStore.GetActiveSet | internal/storage/snapshot.go:70-80 | Exactly the keys of the registered witnesses, none if no list is stored |
| Nodes.RegisteredQuorum | node/node.go:364-373 | Honest signatures of any three different registered witnesses meet the quorum a confirmation is checked for |
| Nodes.QuorumIsRegistered | node/node.go:364-373 | Whatever meets it was signed by three different registered witnesses |
| Store.NonceLockStore.Lock | internal/storage/snapshot.go:93-99 | Grants exactly if the nonce is not held, for 15 seconds |
| Store.NonceLockStore.Unlock | internal/storage/snapshot.go:102-104 | Releases one nonce and nothing else |
| Store.NonceLockStore.IsLocked | internal/storage/snapshot.go:107-110 | Tells whether the nonce is held |
| NonceLocks.GrantsExclude | internal/storage/snapshot.go:84-104 | In any timed sequence of requests, overlapping or not, two grants of a nonce with no release in between are at least 15 seconds apart unless the second request looked before the first was granted |
| NonceLocks.OverlappingRequestsBothGranted | internal/storage/snapshot.go:93-99 | Two requests that both look before either writes are both granted at the same time |
| NonceLocks.LateTakeGranted | internal/storage/snapshot.go:93-99 | A lock granted between another request's look and its write does not stop that request |
| NonceLocks.TakeAtOnce | internal/storage/snapshot.go:93-99 | A request that writes right after it looked is the lock operation of the store |
| NonceLocks.HeldWindow | internal/storage/snapshot.go:106-110 | A nonce is held exactly in the 15 seconds after a grant that was not released |
| Crypto.HashTx | internal/crypto/hash.go:16-35 | Feeding the hasher piece by piece hashes the preimage |
| Crypto.PreimageInjective | internal/crypto/hash.go:16-35 | The preimage determines every covered field, for parent lists of any length |
| Crypto.HashDeterminesFields | internal/crypto/hash.go:16-35 | Two transactions have equal hashes exactly if their covered fields are equal or their preimages are a collision of the hash |
| Crypto.FillWitnessMsg | internal/crypto/sign.go:93-101 | The filled buffer is the witness message |
| Crypto.WitnessMsgInjective | internal/crypto/sign.go:93-101 | A witness message determines hash, tip and flag |
| Crypto.SignTx | internal/crypto/sign.go:10-18 | Sets the hash and the signature of that hash |
| Crypto.VerifyTx | internal/crypto/sign.go:21-30 | Accepts exactly a matching hash with a valid signature |
| Quorum.CountValidSigs | internal/crypto/sign.go:71-91 | The count is the number of distinct active witnesses with a valid, lock-seen signature |
| Quorum.VerifyQuorum | internal/crypto/sign.go:57-68 | Accepts exactly if that number reaches k |
| Quorum.ValidSignersMonotone | internal/crypto/sign.go:71-91 | Order and repetition do not matter, and more signatures never count for less |
| Quorum.ExactQuorum | internal/crypto/sign.go:57-91 | k signatures meet a quorum of k exactly if all count and no witness signed twice |
| Quorum.CountsMeans | internal/crypto/sign.go:46-53 | A signature counts exactly if its signer is active, says it saw the lock, and its key verifies the signature over hash, tip and 1 |
| Quorum.QuorumMeans | internal/crypto/sign.go:57-91 | A quorum of k is met exactly if k different active witnesses have signed this transaction in that sense |
| Quorum.HonestCounts | internal/crypto/sign.go:33-53 | What an honest witness signs is valid, and counts exactly if it is active and saw the lock |
| Quorum.HonestQuorum | internal/crypto/sign.go:33-91 | Honest signatures of different active witnesses that saw the lock meet a quorum of their number |
| Quorum.QuorumsIntersect | internal/crypto/sign.go:57-68 | With fewer than 2k active witnesses two accepted lists share a witness |
| Transfers.ConfirmConserves | internal/protocol/transaction.go:154-196 | A transfer to another account succeeds exactly if the sender covers amount and bond and the graph accepts; it moves exactly those, and a refusal changes no balance |
| Transfers.ConfirmRefusals | internal/protocol/transaction.go:154-178 | Which check refuses a confirmation, in their order |
| Transfers.ConfirmExtendsGraph | internal/protocol/transaction.go:176-178 | A confirmation adds exactly the edges to the parents, on a refusal by the graph those before the refused one, and otherwise none |
| Transfers.ConfirmedBecomesTip | internal/protocol/transaction.go:154-196 | A transaction built on the current tips is the only tip once it is confirmed |
| Transfers.ConfirmConservesIff | internal/storage/chain.go:97-103 | A confirmation of a transfer to oneself adds its cost to the supply, any other keeps it; so the supply is kept exactly if the transfer is to somebody else, or moves nothing |
| Transfers.SelfTransferCreatesMoney | internal/protocol/transaction.go:154-196 | A payment of 1000 to oneself out of 10000 is built, is confirmed, and leaves 11001 |
| Transfers.RunConserves | internal/protocol/transaction.go:154-196 | Over any run the supply is constant and every balance within the maximum |
| Transfers.BondAlwaysFits | internal/protocol/transaction.go:189 | The ignored overflow of the pool never happens |
| Transfers.ConfirmThenApply | internal/protocol/transaction.go:199-213 | After a local confirmation, the gossiped one is credited again exactly if it is unmarked, positive and fits |
| Transfers.ReturningConfirmationCreditsTwice | internal/protocol/transaction.go:199-213 | A payment of 1000 that is built, confirmed and comes back as gossip leaves its receiver with 2000 |
| Transfers.BuiltFields | internal/protocol/transaction.go:47-93 | A transaction is built exactly if the amount is valid and the balance covers its cost; it carries the next sequence |
| Transfers.BuiltIsAccepted | internal/protocol/transaction.go:110-151 | With an unexpired snapshot of the builder's balance, a witness accepts what was built exactly if its own records agree |
| Transfers.BuiltIsCovered | internal/protocol/transaction.go:154-178 | On the unchanged state only the receiver's balance or the graph can refuse what was built |
| Transfers.VerdictMeans | internal/protocol/transaction.go:110-151 | A witness accepts exactly what has an unexpired snapshot or none, the hash of its fields, a valid signature of the sender, the next sequence if one is known, and is covered by every balance the witness knows or costs more than the maximum; each refusal names the first that fails |
| Transfers.BalanceCheckWorksIff | internal/protocol/transaction.go:146-149 | The balance check works for every witness exactly if amount plus bond is within the maximum |
| Transfers.UncoveredMaximumAccepted | internal/protocol/transaction.go:146-149 | A signed transfer of the maximum is accepted by a witness without any record of its sender |
| Replicas.ExactlyOnce | internal/protocol/transaction.go:199-213 | After any deliveries, one after another, every balance is the initial one plus the amounts of the distinct hashes applied |
| Replicas.DeliveriesCredit | internal/protocol/transaction.go:199-213 | The same from any intermediate state |
| Replicas.DeliveriesComplete | internal/protocol/transaction.go:199-213 | If all credits fit, everything delivered one after another is applied |
| Replicas.ReplicasConverge | internal/protocol/transaction.go:199-213 | Then replicas that received the same set of confirmations, each one after another, are equal |
| SenderLog.RunGapless | internal/protocol/transaction.go:65-69 | In every order of builds, confirmations and gossip credits the sender's log is exactly 1..M, with the latest sequence and all pending ones in range |
| SenderLog.ConfirmGapless | internal/storage/chain.go:97-108 | One confirmation extends the log or rewrites an entry, never leaving a gap |
| SenderLog.ConfirmKeepsAgreementIff | internal/storage/chain.go:97-108 | One confirmation keeps log and balances in agreement exactly if its sequence continues the log |
| SenderLog.RunAgreesIff | internal/protocol/transaction.go:154-213 | In every order of builds, confirmations and gossip credits, replaying the log at the end, over the initial books with what gossip credited, gives the current balances and pool exactly if every confirmed transaction had the sequence after the latest; one that had not is never made up for |
| SenderLog.SharedSequenceDisagrees | internal/protocol/transaction.go:65-69 | Two payments built before either is confirmed: both are paid, one is in the log, and they disagree |
| SenderLog.SerialRunAgrees | internal/protocol/transaction.go:154-189 | In serial runs replaying the log gives the current balances and pool |
| SenderLog.SerialRunFromFresh | internal/protocol/transaction.go:154-189 | In particular from a ledger in which the node has sent nothing |
| Races.UndisturbedIsConfirm | internal/protocol/transaction.go:154-196 | The six accesses of a confirmation, with nothing in between, are `Confirm` |
| Races.UndisturbedIsApply | internal/protocol/transaction.go:199-213 | The four accesses of a credit, with nothing in between, are `Apply` |
| Races.RunDrifts | internal/protocol/transaction.go:154-213 | Over every interleaving of confirmations and credits, the money there is changes by exactly what the values written were out of date by, and the credits not made |
| Races.OverlappingNeverCreates | internal/protocol/transaction.go:154-213 | However confirmations and credits overlap, no money is created if nobody pays out of an account that another one pays out of or credits; any number may pay into one account |
| Overlaps.NeverCreatesIff | internal/protocol/transaction.go:154-213 | For any number of confirmations and credits that would each go through: no schedule creates money if and only if nobody pays out of an account that another one pays out of or credits |
| Overlaps.TwoTransfersIff | internal/protocol/transaction.go:154-196 | For two transfers the condition is exact whatever their bonds, with one more case: transfers without bonds between the same two accounts, in opposite directions or too large to fit together, create nothing either |
| Overlaps.LockstepRace | internal/storage/chain.go:97-144 | Two covered transfers to others, which the graph accepts, confirmed in lockstep: both succeed, what the first did to accounts the second writes is undone, and its bond is lost |
| Overlaps.CreditUndoesConfirm | internal/protocol/transaction.go:154-213 | A credit that reads before a confirmation and writes after it undoes the payment, or the credit, the confirmation made to its account |
| Overlaps.ConfirmUndoesCredit | internal/protocol/transaction.go:154-213 | A confirmation that reads before a credit and writes after it undoes the credit if they share an account, and the hash stays marked |
| Overlaps.OverlapCreatesMoney | node/node.go:340-344 | Two payments of 1000 built from the same 10000 and confirmed in lockstep leave 11000 |
| Deliveries.ApartIsSerial | internal/protocol/transaction.go:199-213 | If deliveries that overlap share neither hash nor receiver, finishing what has begun gives what applying them one by one in the order they began gives |
| Deliveries.ApartExactlyOnce | internal/protocol/transaction.go:199-213 | So they credit every distinct hash once, with overlaps too |
| Deliveries.AlwaysSerialIff | internal/protocol/transaction.go:199-213 | Deliveries that are due come out as if applied one by one under every schedule if and only if no two share a hash or a receiver |
| Deliveries.SameHashCreditsTwice | internal/protocol/transaction.go:200-211 | Two overlapping deliveries of one hash are both credited |
| Deliveries.SameReceiverLosesCredit | internal/protocol/transaction.go:203-211 | Two overlapping deliveries to one receiver are both marked and one credit is lost |
| Processor.TxProcessor.BuildTx | internal/protocol/transaction.go:47-93 | Builds as `Build` on the current tips |
| Processor.TxProcessor.VerifyTxInternal | internal/protocol/transaction.go:110-151 | Decides as `Verify` |
| Processor.TxProcessor.ConfirmTx | internal/protocol/transaction.go:154-196 | Changes store and graph as `Confirm`, nothing else in the store, and leaves an automatic snapshot to be taken exactly after a successful confirmation of a thousandth sequence |
| Processor.TxProcessor.AutoSnapshot | internal/protocol/transaction.go:215-226 | Writes that snapshot, on the tips at the time it runs, and nothing else |
| Processor.DueBalanceIff | internal/protocol/transaction.go:191-193 | The balance it names is the one recorded for the sender, unless the transfer was to oneself and moved something |
| Processor.TxProcessor.ApplyConfirmedTxBalance | internal/protocol/transaction.go:199-213 | Changes the store as `Apply`, and nothing else |
| Gossips.Gossip.ShouldForward | internal/network/gossip.go:40-54 | Answers and counts as `Forward` |
| Gossips.Gossip.CleanupPass | internal/network/gossip.go:61-65 | Removes exactly the entries older than the lifetime |
| Gossips.SelectPeers | internal/network/gossip.go:71-81 | Selects different peers, n of them or all if there are fewer |
| Gossips.GrantedExactly | internal/network/gossip.go:40-54 | Between removals an id is granted exactly its remaining budget, whatever happens to other ids |
| Gossips.AnswersInOrder | internal/network/gossip.go:40-54 | All yes answers come before any no |
| Gossips.FreshIdBudget | internal/network/gossip.go:40-54 | A new id is forwarded for its first six queries |
| Gossips.EntrySince | internal/network/gossip.go:40-66 | From the query that finds an id new, its entry keeps that query's time and counts up to six, and exactly six queries are granted, while no pass comes more than 600 seconds later |
| Gossips.PassKeepsIff | internal/network/gossip.go:61-65 | A cleanup pass keeps an entry exactly up to 600 seconds after the query that made it |
| Gossips.KeptTenMinutes | internal/network/gossip.go:40-66 | So an id asked about for the first time has a budget of six in that window, whatever else happens |
| Gossips.NewBudgetAfterPass | internal/network/gossip.go:40-66 | After a later pass the next query finds the id new again and is granted |
| Packets.ComputeSigMsgId | node/node.go:285-290 | The loop combines hash and key byte by byte |
| Packets.SigMsgIdInjective | node/node.go:285-290 | Different witnesses use different ids for one transaction |
| Packets.SigMsgIdBits | node/node.go:287-289 | Every bit of the id is the exclusive or of the bits of hash and key |
| Packets.SigMsgIdUndone | node/node.go:285-290 | Combining the id with the key gives back the hash |
| Packets.SigMsgIdSeparates | node/node.go:285-290 | One witness uses different ids for different transactions |
| Packets.SigMsgIdsMeet | node/node.go:285-290 | Different witnesses share an id exactly for the one other hash that makes up for the other key |
| Packets.OtherTransactionsKeepBudget | node/node.go:317-323 | Relaying a witness's signatures of other transactions leaves the budget for this one untouched |
| Packets.BroadcastReachesAll | node/node.go:450-464 | With at most eight peers a broadcast reaches all of them |
| Packets.RelayReachesAll | node/node.go:216-227 | So does the relay of a packet with a new id |
| Packets.AnnouncementReachesAll | node/node.go:402-427 | Every one of at most eight peers is sent the lock and then the request |
| Packets.WitnessAnswers | node/node.go:234-302 | An accepting witness that sees a request first sends its signature to the sender if it is a peer, else to all of at most eight peers, and the request to all of them |
| Pending.PendingMeta.Append | node/node.go:326-335 | Appends and claims the confirmation as `Collect`, and copies the list |
| Pending.ConfirmedAtMostOnce | node/node.go:304-345 | In every interleaving an entry is handed to confirmation at most once, with exactly its first three signatures, and is then no longer pending |
| Arrivals.ConfirmedIffThreeArrived | node/node.go:304-345 | When all handlers are done, exactly those of this node's transactions for which three signatures arrived have been handed to confirmation, whatever signatures for other transactions arrived meanwhile |
| Arrivals.PendingHoldsAll | node/node.go:314-335 | A transaction still pending then holds every signature that arrived for it, as often as it arrived |
| Pending.QuorumDecidedByFirstThree | node/node.go:364-373 | A confirmation passes the quorum check exactly if the first three signatures are valid and from different active witnesses |
| Pending.BadSignatureLosesQuorum | node/node.go:326-344 | A bad signature followed by three good ones: all four are collected and would meet the quorum, the one confirmation started does not |
| Pending.RunKeeps | node/node.go:314-344 | The protocol invariant holds in every reachable state |
| Traffic.TrafficDiesOut | node/node.go:216-362 | The traffic of a transaction among N nodes with W witnesses ends after at most 26 + N (96 + 48 W) steps |
| Traffic.StepDecreases | node/node.go:216-387 | Every delivery, loss or confirmation lowers the potential; nothing else raises it |
| Traffic.ResponsePaid | node/node.go:216-362 | A handler uses up at least as much budget as it sends packets |
| Traffic.RunBounded | node/node.go:216-387 | No run has more such steps than the potential it starts with |
| Traffic.ConfirmRunsOnce | node/node.go:326-344 | However packets travel and handlers race, with claiming the confirmation and removing the entry as separate steps, a transaction's confirmation runs at most once, and not before three signatures were kept |
| Traffic.NotStuck | node/node.go:196-209 | While anything is outstanding the traffic can go on without a loss |
| Traffic.RunNotStuck | node/node.go:196-209 | So no run that starts with sending gets stuck |
| Nodes.Node.Broadcast | node/node.go:450-464 | The packet goes to eight different peers, or to all if there are fewer |
| Nodes.Node.HandleNonceLock | node/node.go:216-227 | Within budget, locks the nonce and relays |
| Nodes.Node.HandleTxVerify | node/node.go:234-302 | Signs and relays exactly if within budget, an active witness, and the checks pass; to the sender directly if it is a peer. Anything is sent only by a registered witness, about a transaction that is signed, continues the sequence, carries no expired snapshot, and is covered as far as the check goes |
| Nodes.Node.SignAccepted | node/node.go:253-290 | The signature names the smallest tip and says whether the lock is held, and an honest key's signature is valid |
| Nodes.Node.HandleWitnessSig | node/node.go:304-345 | Collects for a pending transaction, relays within budget otherwise, and touches no other pending entry |
| Nodes.Node.HandleTxConfirmed | node/node.go:351-362 | Within budget, applies the credit and relays |
| Nodes.Node.ConfirmTx | node/node.go:364-387 | With a quorum confirms and announces, without one nothing changes and nothing is announced; only the ledger part of the store is touched |
| Nodes.Node.Announce | node/node.go:402-427 | The nonce lock, then the request with a snapshot of the node's own balance and latest sequence on its current tips, for six hours |
| Nodes.Node.AcquireNonceLock | internal/protocol/transaction.go:96-98 | Locks the nonce unless it is held |
| Nodes.Node.SendTx | node/node.go:389-432 | Builds, locks, registers a fresh pending entry and announces with such a snapshot, or changes nothing |

## Left out

- Insertion.GuardBound: stated for n below 256^32, because larger chains of distinct 32-byte hashes do not exist.
- SenderLog.RunAgreesIff: for operations made one after another, transfers to other accounts and a supply that stays within the maximum, see `Transfers.SelfTransferCreatesMoney` for the others.
- Processor.TxProcessor.ConfirmTx: run as one step on the byte store; its interleavings are covered by `Races` and `Overlaps`, on values.
- Processor.TxProcessor.ApplyConfirmedTxBalance: run as one step on the byte store; its interleavings are covered by `Races` and `Deliveries`, on values.
- Store.NonceLockStore.Lock: run as one step on the byte store; its interleavings are covered by `NonceLocks`, on values.
- Replicas.ExactlyOnce: for deliveries made one after another, see `Deliveries.AlwaysSerialIff` for overlapping ones; and for stores that did not confirm the transaction themselves, see `Transfers.ConfirmThenApply`.
- Overlaps.NeverCreatesIff: if two of the transfers are between the same two accounts, at least one of them carries a bond; for two transfers without, see `Overlaps.TwoTransfersIff`.
- Races.OverlappingNeverCreates: a confirmation inserts its edges into the graph in one step; the source locks the graph once per edge.
- Nodes.Node.HandleWitnessSig: run without interruption; its interleavings are covered by `Pending`, on values.
- Traffic.TrafficDiesOut: no cleanup pass during the run, since it would renew budgets.
- Arrivals.ConfirmedIffThreeArrived: for runs in which transactions have different hashes and no signature for a transaction arrives before it is sent.
- SenderLog.RunGapless: covers runs with fewer steps than there are sequence numbers, because the sequence wraps around at 2^64.
- Transfers.RunConserves: starts from a supply within the maximum; the faucet can write any balance.
- Transactions, signatures and snapshots are values: the sharing of one transaction object between the pending table and the confirmation is not captured.
- The storage engine, its errors and its recovery.
- Connections: accepting, handshakes, framing, send queues. A packet that a connection drops is a loss in `Traffic`.
- The HTTP interface, command line, configuration, key files and testnet scripts.
- Ed25519 (section 5.1 of RFC 8032) and BLAKE2b (section 3 of RFC 7693).
- Double spending across nodes: witnesses never advance a remote sender's sequence, so nothing is claimed.
