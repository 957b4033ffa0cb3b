# A verified model of LapseCoin's consensus core, chain sync and datagram transport

LapseCoin is a full node: a ledger with a smooth emission schedule, blocks that carry a proof of sequential
work (VDF) whose length is retargeted upwards, a byte-capped mempool, a block packer, fork choice by summed
VDF iterations, chain sync over lossy requests, an SQLite index, and one UDP socket with chunked messages.
This project models those parts in Dafny and proves what they promise together.

## How the model is built

Code that changes an object or runs a loop is a class or a method, and each method is proved against a
function on values; the properties are lemmas about those functions, or invariants every method keeps.
Hashes, signatures, addresses, the VDF, sizes and decoding are uninterpreted functions (`Types.Env`); all
statements hold for whatever they are. Clocks, random draws, queue contents, answers of a peer and the fate
of datagrams are arguments or steps, so that every statement is about all of them.
Proofs by induction are written out; automatic induction is switched off wherever Dafny would use it.

| file | part of the program |
|---|---|
| `Params.dfy`, `Prelude.dfy`, `Types.dfy` | constants; sorting, filtering, string order; transactions, blocks, foreign functions |
| `Hashes.dfy`, `Alike.dfy` | hash functions without collisions exist; chains that differ in `tx_bytes` only behave alike |
| `Ledger.dfy`, `State.dfy`, `Emission.dfy` | `src/state.py`: the ledger as a value, the class over it, the emission limit |
| `TxRules.dfy` | `src/tx.py` and the transaction loop of a block |
| `Difficulty.dfy`, `BlockRules.dfy`, `Packing.dfy` | `src/block.py`: retarget, block checks, packer |
| `Chains.dfy`, `ChainMethods.dfy`, `Conservation.dfy` | `src/chainstate.py`: replay, incremental application, fork choice; supply and nonces over chains |
| `Mempool.dfy`, `PendingRun.dfy` | `src/mempool.py`; the pool and the confirmed ledger over whole runs |
| `Storage.dfy` | `src/storage.py` as maps keyed like the tables, and the loading at startup |
| `ForkChoice.dfy`, `Node.dfy` | `src/node.py`: judging an offered chain; the node state machine |
| `Syncer.dfy` | `src/syncer.py` with the serving side in `src/peer_udp.py` |
| `Chunks.dfy`, `ChunkProtocol.dfy`, `ChunkSteps.dfy` | `src/peer_udp.py`: headers, splitting, reassembly; acknowledged sends as code and as a step system |
| `Carriage.dfy` | `src/syncer.py` over the chunks: what a sync can bring across at all |
| `Gossip.dfy`, `RateLimit.dfy` | `src/gossip.py` and the relay over a network; the token bucket |
| `Witnesses.dfy` | concrete inputs: hypotheses that can be met, and where the program falls short |

## Conditions the statements carry

- Every block but the first has a non-zero height (part of `Chains.ValidChain` and `ForkChoice.FairOffer`).
  A block of height 0 skips the parent and VDF checks (src/block.py:181, src/block.py:208) and is skipped
  by replay (src/chainstate.py:84). `Chains.ReplayAgreesIff` gives the exact condition for every accepted
  block: its height is not 0, or it changes nothing anyway (no iterations, no transactions, no reward), and
  `Chains.HeightZeroIsAccepted` gives a block on which the two ledgers differ.
- `vdf_iterations` is always present in a block. The two defaults in the code differ (src/block.py:220 and
  src/chainstate.py:68).
- Where transactions or blocks are told apart by hash, the transaction hash or the block hash has no
  collisions (`Types.TxCollisionFree`, `Types.BlockCollisionFree`). `Hashes.CollisionFreeExists` shows by an
  explicit encoding that this can be met.
- Each block of an offered chain carries its own hash but for `tx_bytes`, which a restart of its owner may
  have filled in (`ForkChoice.FairOffer`): the code compares the shared prefix by the hash field only
  (src/node.py:551-555). `ForkChoice.ForgedPrefixIsTaken` shows that this is needed, and
  `Stores.GenesisIsOverwritten` that the heights are.
- A peer serves the chain of a node of this program, restarted or not (`Sync.Kept`).
- A valid chain says nothing about clocks. The check against the local clock is a separate condition
  (`Chains.InTime`, `ForkChoice.NotAhead`).

## Where the code differs from its comments

The model follows the code.

- The header has a four-byte message id between type and chunk number; the description of the wire format
  (src/peer_udp.py:35) leaves it out.
- A reassembly record goes stale by the age of its first chunk, not by inactivity (src/peer_udp.py:171,
  src/peer_udp.py:183); the comment at src/peer_udp.py:20-22 speaks of inactivity.
- The cap on served blocks (src/peer_udp.py:83-88) is not kept for a `to_h` below -1, which Python reads as
  counted from the tip: `Sync.ServeBound` gives the exact condition.
- The tracking entry of a chunked send is said to be dropped after the last round (src/peer_udp.py:692-695).
  For a payload above 32767 full chunks `_pack` raises outside the guarded part and the entry stays:
  `ChunkProtocol.Sender.SendChunked` and `Chunks.HeaderLimit` give the exact condition.
- A refused datagram resets the refill clock without keeping the refill (src/peer_udp.py:467-469). A steady
  sender above the rate gets its burst and some more, and from then on nothing: `RateLimit.SteadyIff` shows
  that the number let through is bounded exactly when the gap is below 1/RATE_LIMIT_PER_SEC, and
  `RateLimit.DoubleRate` that at 100 datagrams a second it is 199.
- After a stem the origin takes its own transaction for a duplicate and does not pass it on
  (src/node.py:507-526). A stem that ends at the origin is lost without a flood: `Relay.RelayCovers` gives the
  exact condition and `Relay.StemEndsAtOrigin` a network on which it happens.
- Filling in `tx_bytes` at startup is said to be for blocks of older databases (src/node.py:153-157). It also
  changes genesis, which never has the field (src/block.py:107-127), and every block of a peer that leaves the
  field out, which no check demands. Such a block no longer matches its hash (`Stores.RestartKeepsIff`,
  `Witnesses.RestartBreaksBareBlock`). Another node takes the chain exactly when each block it does not share
  had the field: `Sync.RestartedOfferIff`.
- The limit on reassembled messages is said to be well above any real message (src/peer_udp.py:89). It is 2.8
  MB, while a block may have 10 MB: `Carriage.LosslessIff` says exactly when every request a sync can make is
  answered, and `Carriage.FetchedIff` what a fetch brings otherwise.
- `debit` can leave a stored balance of 0; nothing here claims that zero balances are absent.

## Model

| member | source | states |
|---|---|---|
| `Hashes.CollisionFreeExists` | src/block.py:157-160 | there are hash functions without collisions, on blocks (all fields but the hash) and on transactions (all but the signature), so the hypothesis can be met |
| `StateObject.State.Credit` | src/state.py:48-51 | adds to one balance and touches nothing else; a non-positive amount raises and leaves the object as it was |
| `StateObject.State.Debit` | src/state.py:53-59 | takes from one balance or, for a non-positive amount or too small a balance, raises and changes nothing |
| `StateObject.State.ApplyTx` | src/state.py:68-80 | the object after one transaction equals the ledger function, also where it raises half way |
| `StateObject.State.ApplyRewardDistribution` | src/state.py:94-105 | credits each share of at least one tick and raises the minted total by exactly those |
| `StateObject.State.Snapshot` | src/state.py:125-132 | a fresh object with the same balances, nonces and minted total |
| `StateObject.State.FromSnapshot` | src/state.py:111-119 | the object built from stored maps holds exactly those maps and that total |
| `Ledgers.ApplyTxEffect` | src/state.py:68-80 | applying succeeds if and only if the positive cost is covered; then every address changes by what it is paid minus what it pays, and only the sender's nonce moves |
| `Ledgers.ApplyTxSupply` | src/state.py:68-80 | one transaction removes exactly its fee from the sum of all balances |
| `Ledgers.SnapshotRestores` | src/storage.py:137-159 | saving rows over the union of balance and nonce keys and loading them gives a ledger that no getter can tell apart |
| `Ledgers.ApplyTxSameView` | src/state.py:34-80 | ledgers that agree through the getters still agree after any transaction, and raise on the same ones |
| `Emission.LeastPayingPool` | src/state.py:14-21 | K is the least pool with K * NUM >= DEN, for the real constants |
| `Emission.RewardBounds` | src/state.py:6-21 | a reward is paid if and only if the pool is at least K, and a pool of at least K - 1 stays so |
| `Emission.RewardIsShare` | src/state.py:6-21 | the reward is the share NUM / DEN of what is left below the cap, rounded down to a tick |
| `Emission.PoolFloor` | src/state.py:6-21 | at every height the mintable pool is the cap minus what was minted and never drops below K - 1 |
| `Emission.PoolStep` | src/state.py:14-21 | above K - 1 the pool strictly falls with every block; at K - 1 the reward is 0 and stays so |
| `Emission.PoolCeiling` | src/state.py:14-21 | after n blocks the pool is at most the cap minus n, or already K - 1 |
| `Emission.SupplyLimit` | src/state.py:14-21 | the minted total has the exact limit SUPPLY_CAP - (K - 1), and rewards are 0 from there on |
| `Emission.PoolAboveExponential` | src/state.py:14-21 | pool_n * DEN^n >= SUPPLY_CAP * (DEN - NUM)^n at every height |
| `Emission.PoolNearExponential` | src/state.py:14-21 | and never by more than one tick a block above that curve: pool_n * DEN^n <= SUPPLY_CAP * (DEN - NUM)^n + n * DEN^n |
| `TxRules.ValidateMeaning` | src/tx.py:69-138 | validation accepts exactly the well-formed, correctly signed transactions with the next nonce whose cost the balance covers |
| `TxRules.ValidatedTxApplies` | src/tx.py:115-138 | no transaction that validates can make apply_tx raise, and it makes nobody negative |
| `TxRules.InterleavingRuns` | src/block.py:231-249 | if each sender's transactions run alone on a ledger, every interleaving of them runs on it in full |
| `TxRules.RunNonces` | src/tx.py:108-112 | in an accepted list each sender's nonces are consecutive from the ledger's, and the ledger ends on the last |
| `TxRules.RunSupply` | src/block.py:231-249 | an accepted list removes exactly its fees from circulation, overdraws nobody and mints nothing |
| `TxRules.RunPays` | src/block.py:231-249 | an accepted list changes each balance by what it pays to the address minus what the address pays by it |
| `Conservation.ChainIsSigned` | src/tx.py:91-105 | every transaction of a valid chain is signed with a key whose address is its sender |
| `Difficulty.LookupIsRecomputation` | src/block.py:22-56 | the constant-time lookup equals the epoch-by-epoch recomputation from genesis, boundary heights included |
| `Difficulty.BlockCarriesEpoch` | src/block.py:22-56 | the count stored in block i is the one recomputed for the epoch of i |
| `Difficulty.DifficultyNeverFalls` | src/block.py:22-56 | counts are constant inside an epoch, never decrease along a chain and are at least VDF_ITERATIONS |
| `Difficulty.MedianSplits` | src/block.py:44-56 | a bump needs at least half of the window's gaps below the threshold, no bump at most half |
| `Difficulty.RetargetMeaning` | src/block.py:40-56 | in timestamps, at the end of a window: with more than half of its gaps under 100 seconds the next count is prior * 102 / 100, with less than half it is prior, with exactly half the two middle gaps decide |
| `Chains.EpochsRetarget` | src/block.py:22-56 | on every valid chain each window's end moves the stored count as its timestamps ask, and no other block does |
| `BlockRules.ValidateBlockMeaning` | src/block.py:173-273 | validate accepts exactly the blocks that pass the clock-free rules and are not ahead of the clock, and the probe then holds exactly the block's transactions |
| `BlockRules.ValidateBlockIff` | src/block.py:173-273 | in the fields of the block: size, own hash, both time bounds, transactions; and for a non-zero height the link to the parent, an address for a builder, the asked iteration count, and a VDF proof that verifies for the parent's hash and the builder |
| `BlockRules.GenesisIs` | src/block.py:107-127 | the first block field by field: height 0, sixty-four zeros for a parent, the fixed time and message, no builder and no proof, 12200000 iterations, its own hash |
| `Packing.GroupBySender` | src/block.py:314-317 | each sender's list holds exactly that sender's transactions in pool order, senders in order of first appearance |
| `Packing.SortGroups` | src/block.py:318-325 | groups are nonce-sorted and then ordered by the fee rate of their first transaction, best first, ties kept in order |
| `Packing.PackLoop` | src/block.py:327-342 | the nested loops with size check, deadline and early exit compute the packing function |
| `Packing.Assemble` | src/block.py:276-349 | the assembled block is the packing of the pool on the skeleton block |
| `Packing.GroupsByFeeRate` | src/block.py:321-325 | a group packed earlier never has a lower leading fee rate than a later one |
| `Packing.AssembledSize` | src/block.py:308-345 | the running byte count equals the size of the block with the packed list (one comma per separator) and stays within the limit |
| `Packing.PackGroupsTakePrefixes` | src/block.py:327-342 | of every sender the packer takes a prefix of the nonce-sorted group and nothing else |
| `Packing.AssembledPrefixes` | src/block.py:276-349 | the same for the whole of assemble |
| `Packing.AssembledRuns` | src/block.py:276-349 | if each sender's group applies alone, the fee-ordered, size-truncated block passes _apply_transactions in full |
| `Packing.AssembledIsFull` | src/block.py:308-345 | without a deadline, of every sender the whole pending list is packed, or its next transaction does not fit into the finished block |
| `Packing.AssembledIsWhole` | src/block.py:308-345 | if the block with the whole pool is within the limit, exactly the whole pool is packed |
| `Packing.PackedByFeeRate` | src/block.py:318-342 | in the block senders stand by the fee rate of their first pending transaction, best first, each sender's transactions together |
| `Packing.AssembledDeadline` | src/block.py:330-334 | a deadline after k transactions were looked at leaves a prefix of at most k of what would be packed without; if it comes after the whole pool, all of it |
| `Packing.GroupSorted` | src/block.py:318-319 | each sender's list is in nonce order |
| `ChainMethods.ApplyTransactionsInPlace` | src/block.py:231-249 | validates and applies one transaction after the other on the state object, leaving the earlier ones applied where it refuses |
| `ChainMethods.ValidateInPlace` | src/block.py:252-273 | the checks in order, then the transactions, on the caller's probe |
| `ChainMethods.ApplyBuilderReward` | src/chainstate.py:15-29 | fees are credited first, then the reward computed from the minted total, and only the reward is minted |
| `Conservation.SettlePays` | src/chainstate.py:15-29 | the builder is credited with exactly the block's fees and the reward for what was minted before, nobody else with anything, and only the reward is minted |
| `ChainMethods.FromChainByReplay` | src/chainstate.py:76-91 | the replay loop on a state object yields the replayed ledger and the summed work, or raises where a transaction does |
| `ChainMethods.ApplyBlockToCopy` | src/chainstate.py:118-125 | apply_block works on a snapshot and yields the grown chain, or raises |
| `ChainMethods.ValidateAndApplyOnProbe` | src/chainstate.py:104-116 | a refused block leaves the chain state as it was; an accepted one is appended with the probe's ledger |
| `Chains.IsBetterIsStrict` | src/chainstate.py:144-180 | fork choice is irreflexive, asymmetric and transitive |
| `Chains.IsBetterDecides` | src/chainstate.py:144-180 | of two chain states one is better unless work and tip key both tie |
| `Chains.HeightIsPosition` | src/block.py:179-190 | on a valid chain every block's height is its position |
| `Chains.ValidChainDifficulty` | src/block.py:218-223 | every accepted chain carries the recomputed counts, all at least VDF_ITERATIONS |
| `Chains.LongerHasMoreWork` | src/chainstate.py:65-68 | each further block of a valid chain adds at least VDF_ITERATIONS of work |
| `Chains.WorkIsProven` | src/chainstate.py:66-69 | on every valid chain each block behind genesis carries a VDF proof that verifies on its parent's hash, and the compared work is the sum of exactly these counts |
| `Chains.ExtensionIsBetter` | src/chainstate.py:144-180 | extending a valid chain always gives a better one |
| `Chains.ValidChainReplays` | src/chainstate.py:76-91 | replaying a valid chain never raises, and each block continues from the ledger before it |
| `Chains.ReplayIsFoldApply` | src/chainstate.py:76-142 | from_chain equals folding apply_block from genesis on every chain with positive heights, valid or not, raising included |
| `Chains.ValidateStep` | src/chainstate.py:104-142 | validate_and_apply accepts exactly the blocks that make a longer valid chain in time, and its result equals both replay and apply_block |
| `Chains.FoldValidateIsValidChain` | src/chainstate.py:104-142 | incremental validation from genesis accepts exactly the valid chains that are in time, and ends in what replay ends in |
| `Chains.FourLedgersAgree` | src/chainstate.py:76-138 | replay, folded validation, folded application and the restored snapshot agree on ledger, minted total and work |
| `Chains.ReplayAgreesIff` | src/chainstate.py:84-88 | of all blocks validate_and_apply accepts, replay agrees on exactly those with a non-zero height and those of height 0 with no iterations, no transactions and no reward to pay |
| `Chains.HeightZeroIsAccepted` | src/block.py:179-210 | a concrete block of height 0 that is accepted on top of genesis and on which replay disagrees |
| `Conservation.SupplyIsConserved` | src/chainstate.py:15-29 | on every accepted chain the sum of balances equals the minted total, which is the emission schedule's and within the cap, and no balance is negative |
| `Conservation.BalanceSheet` | src/chainstate.py:76-91 | on every valid chain each balance is what the address was paid, minus what it spent, plus the fees and rewards of the blocks it built |
| `Conservation.NonceSequence` | src/tx.py:108-112 | each sender's transactions carry nonces 1, 2, 3, ... in chain order and the ledger nonce is their number |
| `Conservation.NoTxTwice` | src/block.py:231-249 | no two transactions of a chain have the same hash, within or across blocks |
| `Mempools.Mempool.Add` | src/mempool.py:30-58 | the pool and the answer are those of the admission function, a failed add changes nothing, and the byte counter stays the sum of sizes within the cap |
| `Mempools.Mempool.Remove` | src/mempool.py:60-63 | one entry leaves and the counter drops by its size; an absent hash changes nothing |
| `Mempools.Mempool.RemoveMany` | src/mempool.py:65-67 | exactly the entries with these hashes leave |
| `Mempools.Mempool.ChooseEvictions` | src/mempool.py:36-52 | the eviction loop takes the counted prefix of the pool sorted worst first and the bytes it frees |
| `Mempools.Mempool.PruneStale` | src/mempool.py:108-115 | exactly the entries whose nonce is above the ledger's and whose age is within the limit stay, and the hashes of the others are returned |
| `Mempools.Mempool.ProbeStateFor` | src/mempool.py:90-103 | the sender's pending transactions applied in nonce order to a copy of the state, raising where apply_tx does |
| `Mempools.AdmissionNeedsRoom` | src/mempool.py:36-53 | an add that needs room succeeds if and only if some worst-first prefix of strictly cheaper entries makes room |
| `Mempools.AdmissionEvictsShortestPrefix` | src/mempool.py:36-58 | it then evicts exactly the shortest such prefix and appends the newcomer |
| `Mempools.AdmissionKeepsCap` | src/mempool.py:30-58 | after a successful add the held sizes sum to at most the cap and the newcomer is in |
| `Mempools.EvictedPaysLeast` | src/mempool.py:36-58 | no kept entry pays a lower fee for its size than an evicted one, and the newcomer pays a higher one than any evicted |
| `Mempools.PruneKeepsFresh` | src/mempool.py:108-115 | removing by hash leaves exactly the entries that are neither superseded nor expired |
| `PendingRun.ProbeNeverRaises` | src/node.py:229-234 | where each sender's pending transactions apply, the probe is their accepted run |
| `PendingRun.AddingKeepsPending` | src/node.py:229-244 | a transaction validated against the probe keeps every sender's pending list applicable |
| `PendingRun.SubmitEnters` | src/node.py:229-244 | where every pending list applies, a submission never raises, and enters the pool if and only if it is new, well formed, next after its sender's pending ones, covered by what they leave of the balance, and has room or can make it |
| `PendingRun.ConfirmedPrefixLeaves` | src/node.py:443-449 | after a commit exactly the packed prefix of each sender's list leaves the pool |
| `PendingRun.CommittingKeepsPending` | src/node.py:443-449 | after committing a packed block every sender's remaining list applies to the new ledger |
| `PendingRun.PendingAlwaysApplies` | src/mempool.py:90-103 | over every run of validated adds, prunes and own commits nothing raises and every pending list stays applicable |
| `PendingRun.OwnBlocksAlwaysPass` | src/block.py:276-349 | after every such run each probe succeeds and every block assemble builds passes _apply_transactions |
| `Stores.Storage.IndexBlock` | src/storage.py:87-101 | adds the rows of one block, an existing key keeping its row |
| `Stores.Storage.SaveStateInner` | src/storage.py:137-148 | after the loop over the key union: exactly one row for each address with a balance or a nonce, holding both, and loading the rows gives a ledger no getter can tell from the saved one |
| `Stores.Storage.SaveBlockAndState` | src/storage.py:168-180 | block, index rows and state in one step |
| `Stores.Storage.ReplaceChainAndState` | src/storage.py:182-196 | drops everything from the fork point on, then inserts and indexes the new tail and stores the state |
| `Stores.Storage.LoadAllBlocks` | src/storage.py:124-127 | all stored blocks in ascending height |
| `Stores.CommitMirrors` | src/storage.py:168-180 | after a commit the tables mirror the grown chain |
| `Stores.ReplacementMirrors` | src/storage.py:182-196 | after a replacement from a shared prefix the tables mirror the new chain |
| `Stores.RunMirrors` | src/storage.py:87-196 | after any run of commits and replacements by valid chains: stored blocks equal the chain, each transaction is indexed at exactly its height, the address index equals a full scan |
| `Stores.RestartRestores` | src/node.py:144-165 | what a restart loads has the old ledger as far as a getter can tell, the old work, and the old chain with tx_bytes filled in |
| `Stores.BackfillTxBytes` | src/node.py:153-157 | each block without tx_bytes gets the sum of its transactions' sizes, every other stays as it is |
| `Stores.FilledInSize` | src/node.py:153-157 | the size filled in is the sum of the transactions' sizes without signatures |
| `Stores.RestartKeepsIff` | src/node.py:153-157 | genesis is always changed by a restart and never verifies again; the blocks behind it are what was stored, verify, and make a valid chain on genesis, if and only if each had tx_bytes |
| `Stores.BackfilledIsRefused` | src/block.py:173-175 | a block that got its tx_bytes at a restart is refused by every node |
| `Witnesses.RestartBreaksBareBlock` | src/node.py:153-157 | concretely: a block without tx_bytes that every node accepts on genesis, that every node refuses as its holder has it after a restart, so that no node that lacks it takes the chain |
| `Witnesses.SharedBareBlockPasses` | src/node.py:551-556 | concretely: a node that has the bare block already takes what a restarted node has on top of it |
| `Sync.RestartedOfferIff` | src/node.py:532-574 | the chain of a restarted node is taken by another if and only if each block from the fork point on had tx_bytes, these are not ahead of the clock, and the chain is better than what that one holds |
| `Sync.OfferTakenIff` | src/node.py:532-574 | the same for whatever chain a node of this program holds: it is taken if and only if its blocks from the fork point on carry their own hashes, are not ahead of the clock, and its replay is better |
| `Stores.LoadingGivesChain` | src/storage.py:124-127 | loading the blocks of mirroring tables gives the chain |
| `ForkChoice.ValidateTail` | src/node.py:66-80 | the tail loop ends in the folded validation of the tail on the given prefix |
| `ForkChoice.EvaluateRemoteChain` | src/node.py:532-574 | the five checks in order, with every early answer |
| `ForkChoice.TailIsValidChain` | src/node.py:66-80 | a tail is accepted on a valid prefix if and only if the whole is a valid chain and the tail is not ahead of the clock |
| `ForkChoice.PrefixShared` | src/node.py:551-556 | a prefix compared by hash only is, tx_bytes aside, the accepted list of blocks |
| `ForkChoice.EvaluateMeaning` | src/node.py:532-574 | an offer is taken if and only if, with its shared prefix as accepted here, it is a valid chain, its tail is not ahead of the clock, and its replay is better than what is held; nothing raises |
| `ForkChoice.AdoptedIsHeld` | src/node.py:532-574 | what is adopted is the offered chain with the ledger and work of its replay, strictly better, valid with its shared prefix as accepted, and new behind the fork point |
| `ForkChoice.HeldValidIff` | src/node.py:144-165 | the held chain is valid as it stands if and only if each of its blocks still carries its own hash |
| `ForkChoice.ForgedPrefixIsTaken` | src/node.py:551-569 | on every held chain of two blocks or more with one more iteration claimed in the last block under the old hash: whatever block is accepted on top is evaluated as better with itself for a tail, and the resulting chain state is none a node could hold |
| `Witnesses.ForgedOffer` | src/node.py:551-569 | concretely: such an offer against a node that holds genesis and one block |
| `Stores.GenesisIsOverwritten` | src/storage.py:182-196 | an accepted tail of a block of height 0 and one on top of it is evaluated as better, and after storing it no table mirrors a chain that starts at genesis |
| `Witnesses.ZeroOffer` | src/block.py:179-210 | concretely: such an offer against a node that holds genesis |
| `Likeness.AlikeAccepted` | src/chainstate.py:104-116 | tx_bytes of the blocks below makes no difference to which block is accepted next, nor to the resulting ledger and work |
| `NodeMachine.NeverReturns` | src/node.py:602-631 | a node never returns to a chain state it left, nor is one it left better |
| `NodeMachine.SwappedMeansDifferent` | src/node.py:369-380 | the identity test of the stale-candidate guard answers the same as comparing values |
| `NodeMachine.SiblingsDecide` | src/chainstate.py:144-180 | between two valid blocks on one tip fork choice and the pick of the winner decide alike, by the smaller VDF output |
| `Prelude.StringLessMeaning` | src/chainstate.py:180 | the smaller string is the one that ends first or has the smaller character at the first difference |
| `NodeMachine.WinnerIsBest` | src/node.py:433-437 | no valid block the node saw would have made a better chain than the winner |
| `NodeMachine.MineableIff` | src/node.py:382-391 | the node's own candidate validates if and only if its address is one, the VDF proof verifies for the tip and that address, 30 seconds have passed since the tip, the block is within the size limit, and the packed transactions run |
| `NodeMachine.PendingIsMineable` | src/node.py:382-391 | where every pending list applies, the packed transactions run |
| `NodeMachine.HandledIs` | src/node.py:467-526 | a submission or a public transaction enters the pool if and only if it may, a block or a transaction on its stem changes nothing, and nothing raises where every pending list applies |
| `NodeMachine.ReaddedIs` | src/node.py:576-590 | of the offered transactions exactly those come back, where there is room, that are not confirmed and that the ledger itself accepts next; nothing else ever comes in |
| `NodeMachine.PoolAfterOfferIs` | src/node.py:592-645 | after an adoption the pool holds what the new tail did not confirm and what returns from the abandoned blocks under the new ledger; after a worse offer all it held and what returns from the offer under the held ledger; else what it held |
| `NodeMachine.BlocksDuringAre` | src/node.py:344-364 | the blocks a cycle has seen are exactly those that came in any of its drains |
| `NodeMachine.QuietCycle` | src/node.py:324-380 | a cycle in which nothing arrives changes nothing but for expired entries before the VDF ends |
| `Witnesses.FirstBlockIsMineable` | src/node.py:382-402 | concretely: a node on genesis with an empty pool commits its first block |
| `NodeMachine.Node.constructor` | src/node.py:144-151 | a node starts on genesis, stored and indexed, with the invariant established |
| `NodeMachine.Node.Restart` | src/node.py:144-165 | a node started on the tables of an earlier run holds its chain with tx_bytes filled in, its work, a ledger no getter can tell apart, an empty pool, and the invariant |
| `NodeMachine.Node.TakeTx` | src/node.py:229-255 | validate against the probe, then add; accepted means newly held, and one's own is remembered with its time |
| `NodeMachine.Node.DrainQueue` | src/node.py:467-481 | all messages in order, blocks collected, stopping where a handler raises |
| `NodeMachine.Node.RetryStuckLocalTxs` | src/node.py:257-274 | after the loop over the keys: entries no longer pending are forgotten, those waiting long enough are re-sent and their clock reset |
| `NodeMachine.Node.ReorgMempool` | src/node.py:633-645 | what the new tail confirms leaves the pool; abandoned transactions come back if each validates against the new ledger |
| `NodeMachine.Node.SalvageForkTxs` | src/node.py:592-600 | transactions of a rejected fork are re-added under the held ledger unless already confirmed |
| `NodeMachine.Node.ApplyBetterChain` | src/node.py:602-631 | adopts exactly when the evaluation says better; storage, chain state, view and pool all follow, and the invariant holds, with the held chain exactly as accepted if each offered block carries its own hash |
| `NodeMachine.Node.Commit` | src/node.py:443-449 | the held chain grows by that block, its transactions leave the pool, tables and view follow |
| `NodeMachine.Node.PickWinner` | src/node.py:404-441 | the winner is the candidate or a valid sibling with a smaller key, and neither the candidate nor any valid sibling seen beats it |
| `NodeMachine.Node.WaitForVdf` | src/node.py:344-364 | chains may be swapped between drains; what arrived is collected in order |
| `NodeMachine.Node.FinishCycle` | src/node.py:382-402 | a block is committed if and only if the candidate can be mined and no handler of the last drain raises; then the history grows by one, the pool is the drained one without the block's transactions, the block extends the chain state the VDF was started on and no valid sibling seen nor the candidate beats it; else the held chain stays |
| `NodeMachine.Node.ChooseBlock` | src/node.py:382-401 | candidate, last drain and pick, with exactly the pool they leave |
| `NodeMachine.Node.RunCycle` | src/node.py:324-402 | over a whole cycle with chain swaps at any point: a block is committed if and only if no handler raises, the chain state is the one the VDF was started on, and the candidate can be mined; it extends that chain state and is not beaten by any valid sibling the cycle saw; chain state and pool at the end are exactly given, and without syncs the history grows by that commit alone |
| `NodeMachine.Node.Start` | src/node.py:211-224 | over any number of cycles: the chain as accepted is valid from genesis and the tables mirror it, the held chain is it but for filled-in tx_bytes and has its replay for a ledger, the view is what is held, and the chain states held climbed strictly; without a restart and with properly hashed offers the held chain is the accepted one |
| `NodeMachine.OwnCommitIsMove` | src/node.py:443-449 | committing one's own block is the commit move of the pending-pool run |
| `Sync.ServeIsRun` | src/peer_udp.py:625-637 | a request within one page is answered with exactly that run of the chain |
| `Sync.ServeBound` | src/peer_udp.py:625-637 | the page cap holds for every chain if and only if to_h is absent or at least -1 |
| `Sync.Link.RequestWithRetry` | src/syncer.py:105-112 | the first answer within SYNC_REQUEST_RETRIES + 1 attempts, lost only if all are |
| `Sync.ValidChainsAgreeBackwards` | src/syncer.py:114-136 | two valid chains that agree at a height agree at the height below |
| `Sync.FindForkPoint` | src/syncer.py:114-136 | terminates; never more than the length of the longest common prefix under any loss, exactly that length without loss |
| `Sync.FetchChain` | src/syncer.py:138-156 | the pages in order, each with its retries, until one is lost, empty, short or the last; a run of the peer's chain from the fork point under any loss, all of it without |
| `Sync.ProposeChain` | src/syncer.py:44-103 | what is handed on is a shared start followed by a run of the peer's chain; without loss, all of it or nothing |
| `Sync.ProposalIsPrefix` | src/syncer.py:86-103 | so with arbitrary loss the chain handed to apply_fn is, tx_bytes aside, a prefix of the peer's chain |
| `Sync.SameTipSameChain` | src/syncer.py:77-84 | the early exit is right: equal height and equal tip hash mean equal chains |
| `Sync.OfferedIsNotBetterAfter` | src/node.py:602-631 | an in-time valid chain offered to the node is not better than what it then holds, adopted or not |
| `Sync.SyncWithHonestPeer` | src/syncer.py:44-103 | with any node of this program for a peer, tx_bytes aside: after a sync the node holds its old chain or a better prefix of the peer's; after a lossless one it has taken the peer's whole chain if and only if the blocks it did not share carry their own hashes, are not ahead of the clock, and the chain is better, and if they do and are, the peer's chain is not better than what it then holds |
| `Chunks.HeaderRoundTrip` | src/peer_udp.py:132-143 | packing and unpacking undo each other; packing raises exactly outside the field ranges, unpacking fails exactly below the header size |
| `Chunks.HeaderLayout` | src/peer_udp.py:110-136 | byte for byte: type, message id, chunk number, signed count, most significant byte first |
| `Chunks.Split` | src/peer_udp.py:146-151 | the loop computes the chunks, one empty chunk for an empty payload |
| `Chunks.SplitMeaning` | src/peer_udp.py:146-151 | joined the chunks give the payload, all but the last are full, and there are as few as possible |
| `Chunks.SizeLimit` | src/peer_udp.py:161-166 | the receiver takes part exactly up to MAX_CHUNK_TOTAL full chunks; of a larger payload it keeps nothing |
| `Chunks.HeaderLimit` | src/peer_udp.py:110-136 | the chunk count fits the signed header field exactly up to 32767 full chunks, else packing raises |
| `Chunks.Reassembler.Feed` | src/peer_udp.py:161-178 | records and answer after one chunk, the KeyError of a bad index included; other messages' records stay |
| `Chunks.Reassembler.EvictStale` | src/peer_udp.py:180-185 | after the loop over the collected keys exactly the records whose first chunk is not older than the limit are left, unchanged |
| `Chunks.SweptHolds` | src/peer_udp.py:180-185 | an eviction drops a message begun too long ago with all its chunks and leaves the record of every other message as it was |
| `Chunks.RecordAge` | src/peer_udp.py:167-172 | a record keeps the time and the count of its first chunk |
| `Chunks.Reassembler.HandleChunk` | src/peer_udp.py:497-506 | a chunk of several is acknowledged with every index if it completed the message, else with what is held; a KeyError sends no acknowledgement |
| `Chunks.RunHolds` | src/peer_udp.py:161-178 | after any arrivals, in any order with any copies and other traffic, the record holds exactly the chunks that came since the payload was last complete |
| `Chunks.DeliversWhenComplete` | src/peer_udp.py:161-178 | an arrival delivers exactly the payload when its index was the only one missing, else nothing |
| `Chunks.FirstDelivery` | src/peer_udp.py:132-178 | nothing comes out until the last missing index arrives, and then exactly the original payload |
| `Chunks.SingleChunkPasses` | src/peer_udp.py:163-164 | a payload of one chunk is delivered at once and leaves no record |
| `Chunks.PendingSync.Feed` | src/peer_udp.py:209-220 | fields after one chunk: the total is overwritten, completion decodes and signals, the chunks stay |
| `Chunks.PendingSync.HandleChunk` | src/peer_udp.py:483-495 | a chunk of several is acknowledged with all the collector holds; a raise sends no acknowledgement |
| `Chunks.SyncDeliversWhenComplete` | src/peer_udp.py:209-220 | in any order with any copies the collector signals exactly when every index has come, with the payload's decoding, and no later copy changes that |
| `ChunkProtocol.Sender.HandleAck` | src/peer_udp.py:720-732 | the entry takes up the indices and signals once all are acknowledged; without an entry nothing happens |
| `ChunkProtocol.Sender.RetransmitUntilAcked` | src/peer_udp.py:692-718 | each round resends exactly what is unacknowledged then, stops once all is, and the entry is removed whatever happens |
| `ChunkProtocol.Sender.SendChunked` | src/peer_udp.py:665-690 | what reaches sendto is the first pass up to its first error and then the rounds' resends; the entry is gone at the end, unless packing raises, when it stays and nothing is sent |
| `ChunkProtocol.ResentIsMissing` | src/peer_udp.py:708-713 | no index acknowledged before is ever resent |
| `ChunkProtocol.ResentEachRound` | src/peer_udp.py:692-713 | a chunk that is never acknowledged is resent exactly once in every round |
| `ChunkProtocol.FirstPassIs` | src/peer_udp.py:676-688 | the first pass sends every chunk up to and including the first that sendto fails on |
| `ChunkProtocol.SendBound` | src/peer_udp.py:665-718 | at most (1 + CHUNK_ACK_MAX_ROUNDS) * total data datagrams |
| `ChunkSteps.ChunkedSendSafe` | src/peer_udp.py:483-506 | in every run with loss, copies and reordering, with the reassembler or the collector of a pending request that may end at any time: acknowledged indices have reached the receiver, the full acknowledgement comes only after the payload came out there, only the payload ever does, sends are bounded, and the entry exists exactly until the sender is through |
| `ChunkSteps.SenderFinishes` | src/peer_udp.py:692-718 | the sender always has a step until it is through, takes a bounded number of them whatever the network does, and then the entry is gone |
| `ChunkSteps.LastChunkCompletes` | src/peer_udp.py:483-506 | once the chunk that completes the message arrives the payload is out, and its acknowledgement, if it arrives, signals the sender |
| `ChunkSteps.LoopIsRun` | src/peer_udp.py:692-718 | the retransmit loop of the code, with the acknowledgements each wait brings, is a run of the step system with the same resends |
| `Relay.Gossip.DandelionSend` | src/gossip.py:64-88 | stem to one peer with one hop less, or flood once per transaction; the seen cache is touched only by the flood |
| `Relay.Gossip.RelayTx` | src/gossip.py:42-52 | flood at once below MIN_PEERS_FOR_STEM known peers, else a stem of the drawn length |
| `Relay.Gossip.MarkSeen` | src/gossip.py:54-60 | tells whether it was seen before, and marks it |
| `Relay.SendsWithin` | src/gossip.py:64-88 | a relay step costs the hops it is given or the peer list of a node that had not flooded |
| `Relay.RelayTerminates` | src/node.py:493-526 | with datagrams lost, copied and reordered, all sends together are at most STEM_HOPS_MAX plus the sum of peer lists, no node floods twice, and so few arrivals are acted on |
| `Relay.RelayCovers` | src/node.py:493-526 | without loss and once nothing is under way: nobody has flooded if and only if there was a stem and its last datagram went to the origin; else a node has flooded if and only if a path avoiding the origin leads to it from the first that did |
| `Relay.StemEndsAtOrigin` | src/node.py:507-526 | concretely: a hub stems to a leaf, which stems back; nothing is lost and nobody ever floods |
| `RateLimit.RateLimiter.AllowRate` | src/peer_udp.py:451-472 | answer and buckets after one datagram, pruning included |
| `RateLimit.WindowBound` | src/peer_udp.py:451-472 | from any reachable state a window of length T admits at most RATE_LIMIT_BURST + RATE_LIMIT_PER_SEC * T datagrams of one address |
| `RateLimit.PruningInvisible` | src/peer_udp.py:459-464 | pruning idle buckets never changes any answer |
| `RateLimit.TableIsRecent` | src/peer_udp.py:459-464 | a table above its size holds only addresses heard of within the last minute |
| `RateLimit.PacedNeverRefused` | src/peer_udp.py:465-472 | an address that keeps to RATE_LIMIT_PER_SEC is never refused |
| `RateLimit.HurriedAlwaysRefused` | src/peer_udp.py:466-469 | a refusal drops the refill: an address that goes on too fast is refused for as long as it does |
| `RateLimit.HurriedBounded` | src/peer_udp.py:465-472 | from any sound bucket, a stream with all gaps at most d < 1/RATE_LIMIT_PER_SEC gets through at most tokens / (1 - RATE_LIMIT_PER_SEC * d) datagrams, however long it is |
| `RateLimit.SteadyIff` | src/peer_udp.py:451-472 | a steady stream from the empty table is let through in full, and without bound, if and only if its gap is at least 1/RATE_LIMIT_PER_SEC |
| `RateLimit.DoubleRate` | src/peer_udp.py:451-472 | at 100 datagrams a second exactly the first 199 get through |
| `Carriage.CarriedIff` | src/peer_udp.py:209-220 | with every chunk delivered, a message comes out of the collector if and only if it has at most MESSAGE_LIMIT bytes, and then decoded |
| `Carriage.LosslessIff` | src/syncer.py:105-156 | over the best network every request a sync can make is answered if and only if no run of up to FETCH_CHUNK blocks of the peer's chain is encoded in more than MESSAGE_LIMIT bytes |
| `Carriage.FetchedIff` | src/syncer.py:138-156 | over the best network a fetch brings all the rest of the peer's chain if and only if each page it asks for is encoded in at most MESSAGE_LIMIT bytes; else it stops before the first page that is not |
| `Carriage.ValidBlockNotCarried` | src/params.py:30 | a block the rules allow but encoded in more bytes than the message limit never reaches a syncing node; the encoding is taken to be no shorter than the counted size |
| `Witnesses.LargeBlockStays` | src/params.py:30 | for every block size between the two limits there is a valid chain with such a block and an encoding, no shorter than the counted size, in which it cannot be fetched; a shorter wire encoding (src/peer_udp.py:116-121) moves the bound up |

## Left out

- Shape checks on dictionaries (missing keys, wrong JSON types, non-dict entries): the model's transactions, blocks and messages are typed records.
- Floats: the retarget factor 1.02 is `x * 102 / 100` rounded down, fee rates are exact rationals, timestamps and the clocks they are compared with are whole microseconds, the clocks of the transport are reals.
- Threads and locks inside one node: each handler is one step; inside a handler one clock reading stands for all.
- peewee, SQLite and JSON: tables are maps, each `db.atomic()` block is one step; the Meta table and failures of the database are not modelled.
- The state object inside a chain state: it is never changed after construction, so it is a value here; the aliasing of Python objects is not captured.
- Sends of blocks and transactions by the node itself, and the retry of stuck transactions as a send: `Relay` covers the relay of one transaction without retries.
- The deadline of `assemble` is a budget of transactions looked at, not a clock.
- Display helpers, key handling, `main.py` except the served slice, `src/api.py`, `src/gui.py`, discovery, hole punching, uptime rewards: interface and network timing only.
- `src/crypto.py` and `src/vdf.py`: foreign functions, uninterpreted here.
- Two chunked sends at once under one (target, message id), and acknowledgements that arrive after the entry was dropped and created anew.
- `Packing.AssembledSize`: the finished block is not claimed to fit the limit, because the VDF fields and `tx_bytes` are added after the count.
- `PendingRun.PendingAlwaysApplies`: no eviction, no expiry and no foreign blocks, which can leave nonce gaps in the pool.
- `NodeMachine.Node.RunCycle`: blocks drained at the very start of a cycle are discarded by the code and are not among those the winner is compared with.
- `NodeMachine.Node.ReorgMempool`: each abandoned transaction is checked against the bare new ledger, so at most the next nonce of each sender returns; nothing more is claimed.
- `Sync.SyncWithHonestPeer`: the peer's chain does not change during the exchange, and its tip is told truthfully.
- `Carriage.ValidBlockNotCarried`: the wire encoding, msgpack where it is installed and else JSON, is not modelled; that it is no shorter than the counted JSON size is a hypothesis, which msgpack usually does not meet for sizes just above the limit.
- `ForkChoice.ForgedPrefixIsTaken`: speaks of the evaluation; an offer without any new block would be evaluated as better too, but the storage layer refuses to insert no rows.
- `ChunkSteps.ChunkedSendSafe`: the receiver answers honestly and its record of the message is not evicted as stale while the send goes on.
- `Chunks.FirstDelivery`: no stale eviction; after a delivery late copies open a new record, which `Chunks.DeliversWhenComplete` accounts for.
- `Relay.RelayTerminates`: seen caches do not evict and message ids do not collide; each node's peer list is fixed, though any part of it may be on cooldown at any time.
