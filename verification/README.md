# Bina L1: a verified model

Bina is a proof-of-work chain whose headers commit to an account ledger, a difficulty that retargets every twenty
blocks, and a Bitcoin seed pinned every twenty blocks. Beside it stand two Ethereum contracts: an oracle that finalises
the chain's randomness by quorum and slashes publishers that break a commitment, and an identity registry that links
Bitcoin key hashes, EVM addresses and BINA keys. This project models the three cores and proves what they promise.

## How the model is built

Each component has a value-level specification (datatypes, step functions, runs as folds of steps) and, where the
original mutates state, a class whose methods update the same fields in the same order and are proved to take exactly
the specified step. Invariants and theorems are about the specification, and the classes carry them: every entry point
of the two contracts requires and ensures `Valid()`, their whole invariant, and the mining loop (`NodeLoops.Mine`) is
proved to leave a node object in the state of a run, with what the run theorems say of it.

| files | what they hold |
|---|---|
| `Numbers`, `Sums`, `Types` | machine words with saturating and wrapping addition, totals of maps, transactions, headers, an ideal hash |
| `Ledger`, `Supply`, `Replay`, `RewardLedger` | block execution, simulation on an overlay, emission, the CSV log and its two replays, the mutable ledger |
| `Merkle`, `Difficulty`, `Work`, `Claims` | the transaction commitment, the retarget and checkpoint heights, proof-of-work tests, the election |
| `Chain`, `ChainLog` | valid chains, what a tip hash determines, and the log a chain leaves behind |
| `NodeState`, `NodeInvariants`, `NodeLedger`, `NodeSchedule` | the node as a state machine, and its invariants over all runs: derived state, ledger and log, emission |
| `NodeElection`, `NodeConfirmation` | what a run adopts executes, whatever it rolled back; confirmed once and never waiting as well |
| `NodeRuns`, `NodeHistory`, `NodeFailure` | whole reorganisations and histories, and runs from genesis in which the rules do not suffice |
| `Node`, `NodeLoop` | the running node's classes, and the mining loop over them |
| `OracleState`, `OracleInvariants`, `Oracle` | the `BinaOracle` contract |
| `IdentityState`, `IdentityInvariants`, `Identity` | the `FastPathIdentityBina` registry |

Hashes are free terms: equal digests hash equal contents under the same domain tag. Signature and proof-of-work
outcomes are the `authentic` fields. Clocks, Bitcoin readings, peer answers, candidate choice and hash-map order are
arguments of the steps, so every theorem holds for all of them.

## Main results

- Simulating a block and executing it agree on the accepted list, every account, the key set and the root, exactly
  when no accepted nonce is the last u64 and the reward does not overflow the miner's balance.
- After every disciplined run the store is a hash-linked chain, and tip, clock, seed, work and difficulty are functions of
  it. Disciplined is about what arrives: claims carry version 1, and an election is between claims admitted since the
  last rollback; a run that finds no candidate pending when it rolls back, in particular one that never does, is
  disciplined whoever is elected.
- A disciplined step within the u64 limits keeps ledger, log and claims right if and only if what rolled-back blocks left
  in the log at its height is replaced. Runs that sync scheduled rewards and roll back transfer-free blocks always do,
  before and after the cap: the ledger's own root is the tip header's, the log reopens to the ledger in memory, and
  balances add up to min(50 per height, cap).
- The coins mined are min(50 per height, cap) after every run that syncs scheduled rewards, whatever else happens in it.
- The difficulty adjuster is right after every permitted rollback although rollback never touches it.
- A tip hash determines every header, the ledger's accounts, the coins mined and the exact transactions of all blocks.
- A confirmed transaction is never lost, in any run at all. A sender's nonce is confirmed once, and a confirmed transaction
  never also waits, after every disciplined run of at most 2^64 / 2001 events, whatever it rolls back and adopts again.
- What a disciplined run elects executes in full on the ledger of the moment, so after every adoption that reaches no u64
  limit the ledger's own root is the tip header's, also when rolled-back transfers have left that ledger wrong.
- What an honest miner builds, every node on the same tip accepts, up to its clock and its view of Bitcoin.
- Every reachable oracle state has exact locks, exact books and an index that inverts the active list; no call
  underflows, outputs finalise once, attested only by publishers authorised at the time, and a commitment whose target
  was reached can never be slashed.
- Every reachable registry state links each address to at most one identity for life, and control once lost is never
  regained; controllers of one hash160 change at least two hours apart; the key maps are inverse on active
  keys; and the fee books balance.

## Where the code does less than its comments say

Each item is proved, and each failing run is a list of events from genesis.

- A rollback keeps pending claims above the fork point, and electing one breaks the chain: `StaleElectionBreaksTheChain`
  is such a run, `StaleClaimSurvivesReorg` the general form. Claims are not checked for their header version
  (`VersionIsNotChecked`), and what is finalised from another version no node can sync (`OtherVersionsNeverSync`).
  Finalising keeps the chain linked if and only if the elected claim extends the tip with version 1
  (`FinaliseConsistentExactly`).
- Scoped replay keeps every transfer row, so a rolled-back transfer is replayed once its height is canonical again:
  `StaleTransferChangesTheLedger` is a run after which the log no longer reopens to the node's own ledger. A zero reward
  writes no row to replace a stale one. Scoped replay selects the right rows if and only if nothing stale is left at the
  height (`AppendKeepsLogExactly`), and gives the right nonces if and only if no transfer row in scope is ahead of the
  chain (`NoncesReopenExactly`). A requeued payment that is mined again has a right nonce and is applied twice:
  `PaymentIsAppliedTwice` is a run after which the node is right and its log reopens with 30 coins for 40. Where replay
  saturates nowhere, each reopened balance is the chain's plus the net of the stale rows (`ReopenedBalance`), so the
  accounts are right if and only if every net is zero and the nonces agree (`AccountsReopenExactly`); stale transfers may
  cancel (`StaleTransfersMayCancel`).
- Sync credits whatever reward a record names (`SyncCreditsAnyReward`); the cap survives if and only if that reward fits
  under it (`SyncKeepsCapExactly`).
- Repeating the last transaction of any odd list of three or more keeps the Merkle root (`OddDuplicationCollides`). Two
  lists share a root if and only if repeating odd groups, round after round, fills them to the same list
  (`SameRootExactly`). The repeat never executes (`RepeatNeverExecutes`), so headers still bind their lists
  (`RootBindsExecutedList`).

## Model

| member | source | states |
|---|---|---|
| `Ledgers.StepAgreesExactly` | l1-chain/core/src/rewards.rs:398-422 | one simulated transaction and one really applied decide alike, and show the same accounts and keys exactly when the nonce has a successor; otherwise the sender's two nonces part |
| `Ledgers.RewardAgreesExactly` | l1-chain/core/src/rewards.rs:424-431 | the simulated reward entry equals `credit` exactly when the addition fits a u64 |
| `Ledgers.SimulationMatchesExecutionExactly` | l1-chain/core/src/rewards.rs:379-432 | simulation returns what sequential `apply_transaction` accepts and the root after really executing and crediting, for every aliasing of sender, recipient and miner, if and only if no accepted nonce is the last u64 and the reward fits |
| `Ledgers.FilteringIsIdempotent` | l1-chain/core/src/rewards.rs:364-378 | simulating the survivors keeps all of them and gives the same root |
| `Ledgers.AcceptedExecutesAlike` | l1-chain/core/src/rewards.rs:316-359 | executing only the accepted transactions gives the ledger that skipping the refused ones gives |
| `Ledgers.SimulationSeesOnlyTheView` | l1-chain/core/src/rewards.rs:254-276 | simulation depends on a ledger only through the accounts its state root commits to |
| `Ledgers.DivergenceStays` | l1-chain/core/src/rewards.rs:379-432 | a sender whose nonce has no successor stays different in simulation and execution for the rest of the block |
| `Supply.BlockReward` | l1-chain/core/src/rewards.rs:36-42 | a reward is at most 50, is zero once the cap is mined, and never takes the total over the cap |
| `Supply.TransferConserves` | l1-chain/core/src/rewards.rs:316-359 | an accepted transfer keeps the sum of balances, burning the fee exactly when no miner takes it |
| `Supply.RewardsFitTheTotal` | l1-chain/core/src/rewards.rs:283-297 | with balances below the total mined, a reward that fits the total fits the miner's balance, so the plain addition cannot wrap |
| `Supply.BlockConserves` | l1-chain/core/src/rewards.rs:283-362 | a block grows the total and, with a named miner, the sum of balances by exactly its reward |
| `Supply.EmissionIsExact` | l1-chain/core/src/rewards.rs:36-42 | after blocks 1 to n with scheduled rewards the total is exactly min(50 n, cap), for every n and all transactions, and balances sum to it |
| `Supply.SameViewSameSum` | l1-chain/core/src/rewards.rs:254-260 | ledgers with the same state root contents hold the same number of coins |
| `Replay.RewardRowReplaysExactly` | l1-chain/core/src/rewards.rs:186-199 | replaying a reward row repeats `credit` exactly when the balance does not overflow |
| `Replay.ReplayRebuildsLedger` | l1-chain/core/src/rewards.rs:119-221 | replaying the log of any run of credits and transfers rebuilds balances, nonces, key sets and total |
| `Replay.ScopedReplayFollows` | l1-chain/core/src/rewards.rs:186-207 | scoped replay of further rows continues from the ledger they were written on |
| `Replay.AppendSelectsExactly` | l1-chain/core/src/rewards.rs:138-199 | the rows scoped replay keeps after a block is appended are the chain's rows plus the new ones if and only if no stale transfer or unreplaced reward row has that height |
| `Replay.NonceReopensExactly` | l1-chain/core/src/rewards.rs:186-207 | scoped replay leaves a sender at an expected nonce if and only if every transfer row of its in scope, stale or not, is below it |
| `Replay.StaleTransferIsReplayed` | l1-chain/core/src/rewards.rs:186-206 | a transfer row in scope that is not below a ledger's next nonce of its sender makes the reopened ledger a different one, for every log and ledger |
| `Replay.PlainReplayNets` | l1-chain/core/src/rewards.rs:186-207 | where replay saturates nowhere, a replayed balance is what its rows credit less what they debit |
| `RewardLedgers.RewardLedger.OpenInner` | l1-chain/core/src/rewards.rs:119-221 | opening a log gives its full replay, or the replay of the rows its scope selects |
| `RewardLedgers.RewardLedger.Credit` | l1-chain/core/src/rewards.rs:283-310 | the new ledger, the row appended (none for a zero reward) and the balance returned |
| `RewardLedgers.RewardLedger.ApplyTransaction` | l1-chain/core/src/rewards.rs:316-362 | which error or success, the new ledger, and the row appended only on success |
| `RewardLedgers.RewardLedger.SimulateBlockExecution` | l1-chain/core/src/rewards.rs:379-432 | the loop over the overlay computes the simulation and leaves the ledger alone |
| `RewardLedgers.CollectRows` | l1-chain/core/src/rewards.rs:138-184 | one pass keeps the in-scope rows in order and remembers the last reward row of each height |
| `RewardLedgers.ReplayCollected` | l1-chain/core/src/rewards.rs:186-207 | replaying with the latest-row table equals replaying the selected rows |
| `RewardLedgers.SelectedSnocForm` | l1-chain/core/src/rewards.rs:138-199 | what one more row does to the selection: a reward row displaces the earlier ones of its height |
| `Merkle.MerkleRoot` | l1-chain/core/src/transaction.rs:184-201 | the layer-replacing loop computes the recursive root, zero for the empty list |
| `Merkle.RootInjective` | l1-chain/core/src/transaction.rs:184-201 | on distinct leaves of one level, equal roots mean equal lists, of any two lengths |
| `Merkle.FullExecutionIsDistinct` | l1-chain/core/src/rewards.rs:398-412 | a list that executes in full has no two equal transaction ids |
| `Merkle.RootBindsExecutedList` | l1-chain/node/src/main.rs:788-883 | two lists with the same root that each execute in full have the same transaction ids in the same order |
| `Merkle.OddDuplicationCollides` | l1-chain/core/src/transaction.rs:190-199 | duplicating the last of an odd number of transactions keeps the root |
| `Merkle.SameRootExactly` | l1-chain/core/src/transaction.rs:184-201 | two lists have one root if and only if pairing their ids and repeating odd groups, round after round, fills them to the same list |
| `Merkle.RepeatNeverExecutes` | l1-chain/core/src/rewards.rs:402-405 | a list with a repeated transaction never executes in full |
| `Difficulty.NoTies` | l1-chain/core/src/difficulty.rs:129-140 | no ratio of integers is an odd power of the square root of two, so rounding to nearest has no ties |
| `Difficulty.RoundedLogIsNearest` | l1-chain/core/src/difficulty.rs:129-140 | the rounded logarithm is the integer whose power of two lies within a factor of root two of the ratio |
| `Difficulty.RetargetIsExact` | l1-chain/core/src/difficulty.rs:121-143 | the delta is the one integer in -3 to 3 satisfying the squared integer inequalities, for every epoch duration |
| `Difficulty.RetargetIsMonotone` | l1-chain/core/src/difficulty.rs:121-158 | a faster epoch never leads to lower difficulty |
| `Difficulty.BitsStayInRange` | l1-chain/core/src/difficulty.rs:121-158 | difficulty stays within 25 to 45 over any blocks |
| `Difficulty.RestoreAtAnyCut` | l1-chain/core/src/difficulty.rs:89-97 | restoring from the three persisted fields at any cut of any blocks ends in the state of an unbroken run |
| `Difficulty.EpochStartIsLastMultiple` | l1-chain/core/src/difficulty.rs:121-158 | on a numbered chain the epoch starts at the last multiple of twenty |
| `Difficulty.TruncationKeepsAdjuster` | l1-chain/node/src/main.rs:1544-1547 | dropping blocks above the epoch start leaves the fold of `record_block` unchanged |
| `Difficulty.DifficultyAdjuster.Record` | l1-chain/core/src/difficulty.rs:121-158 | the mutable adjuster takes the retarget step and reports it exactly at epoch boundaries |
| `Checkpoints.GoverningIsGreatestCheckpoint` | l1-chain/core/src/bitcoin_entropy.rs:16-27 | a height is the governing one if and only if it is the greatest checkpoint height not above |
| `Work.LeadingZeroBits` | l1-chain/core/src/block.rs:98-109 | the count is the position of the first set bit, 256 for the zero hash |
| `Work.MeetsDifficulty` | l1-chain/core/src/block.rs:75-95 | true exactly when the first `bits` bits are clear, also beyond the hash |
| `Work.MeetingIsCounting` | l1-chain/core/src/block.rs:75-109 | meeting a difficulty is having that many leading zero bits |
| `Claims.WinnerIsUnbeaten` | l1-chain/core/src/claims.rs:113-124 | the elected claim is one of the claims and no claim is better |
| `Claims.WinnerIgnoresOrder` | l1-chain/core/src/claims.rs:97-124 | any two orderings of the same claims elect the same block hash |
| `Chains.LinkedChainIsOrdered` | l1-chain/node/src/main.rs:1198-1229 | heights are positions, hashes link neighbours, timestamps strictly rise |
| `Chains.SeedsFollowCheckpoints` | l1-chain/node/src/main.rs:1230-1237 | every block carries the seed of the block at its governing checkpoint |
| `Chains.BitsInRange` | l1-chain/core/src/difficulty.rs:121-158 | every stored block's difficulty is within 25 to 45 |
| `Chains.WorkIsBounded` | l1-chain/node/src/main.rs:1967 | the work of any chain of u64 length stays below u128 |
| `Chains.BlockLedger` | l1-chain/node/src/main.rs:1970-1990 | a block that simulates to its header's root really executes in full to that root and keeps the books balanced |
| `Chains.ChainLedger` | l1-chain/node/src/main.rs:1970-1990 | along a valid chain the executed ledger's root is the tip header's and balances sum to the coins mined |
| `Chains.SameTipSameHeader` | l1-chain/core/src/block.rs:55-70 | linked chains with one tip hash have one header at every height |
| `Chains.SameTipSameConsensus` | l1-chain/node/src/main.rs:1156-1345 | ... and one clock, difficulty state, pinned seed and work |
| `Chains.SameTipSameLedger` | l1-chain/node/src/main.rs:768-904 | ... and, when valid, the same accounts, coins mined and transactions of every block |
| `ChainLogs.BlockCallsExecute` | l1-chain/node/src/main.rs:1970-1985 | applying a block's transfers and crediting its reward executes the block and writes rows of one block shape |
| `ChainLogs.OpenScopedRebuilds` | l1-chain/core/src/rewards.rs:115-207 | a log right for a chain reopens, scoped to any of its heights, to the ledger as it stood after that block |
| `ChainLogs.AppendKeepsLogExactly` | l1-chain/core/src/rewards.rs:186-206 | after appending a block, scoped replay selects exactly the chain's rows at every height if and only if nothing stale is left at the new one |
| `ChainLogs.NoncesReopenExactly` | l1-chain/core/src/rewards.rs:186-207 | with the chain's own transfer rows in the log, a sender's reopened nonce is the chain's if and only if no transfer row of its in scope is ahead of the chain |
| `ChainLogs.ReopenedBalance` | l1-chain/core/src/rewards.rs:186-207 | where replay saturates nowhere, a reopened balance is the chain's plus the net of the stale rows in scope |
| `ChainLogs.AccountsReopenExactly` | l1-chain/core/src/rewards.rs:186-207 | every reopened account is the chain's if and only if the stale rows net to zero for every address and the nonces agree |
| `ChainLogs.TransferFreeRollback` | l1-chain/node/src/main.rs:1587-1596 | rolling back transfer-free blocks leaves no transfer row above the new tip |
| `ChainLogs.ForwardRunRoundTrip` | l1-chain/core/src/rewards.rs:115-207 | for a single forward run, zero rewards included, scoping to height h gives the ledger after block h |
| `NodeStates.ForkPointIsBelow` | l1-chain/node/src/main.rs:1497-1523 | the walk back ends at or below the tip, and above the floor only at a block both sides have |
| `NodeInvariants.AdoptConsistentExactly` | l1-chain/node/src/main.rs:1268-1335 | adopting a block keeps all derived state a function of the stored chain if and only if the block links to it |
| `NodeInvariants.FinaliseConsistentExactly` | l1-chain/node/src/main.rs:1908-2090 | finalising keeps the node consistent if and only if the elected claim extends the current tip with version 1 |
| `NodeInvariants.SyncAcceptsExactly` | l1-chain/node/src/main.rs:1198-1266 | a record is accepted if and only if it links to the stored chain, executes on the ledger and is not too far in the future; accepting keeps the node consistent |
| `NodeInvariants.RollBackKeepsAdjuster` | l1-chain/node/src/main.rs:1544-1547 | above the epoch start the shorter chain folds to the same adjuster |
| `NodeInvariants.RollBackConsistent` | l1-chain/node/src/main.rs:1492-1620 | a permitted rollback goes through, drops at most eighteen blocks, and tip, clock, seed, work and untouched adjuster are those of the shorter chain |
| `NodeInvariants.StepKeepsConsistent` | l1-chain/node/src/main.rs:1457-2090 | every step keeps derived state a function of the stored chain, except exactly a finalise step that elects a claim not extending the tip; pending claims stay checked against some linked chain either way |
| `NodeInvariants.FreshIsCurrent` | l1-chain/node/src/main.rs:1605-1612 | claims admitted since the tip last moved, in either direction, are built on that tip with version 1 |
| `NodeInvariants.TidyIsDisciplined` | l1-chain/node/src/main.rs:1909-1920 | a run that never rolls back with candidates pending elects only claims admitted since, whatever order they are met in |
| `NodeInvariants.EveryRunIsConsistent` | l1-chain/node/src/main.rs:1631-2092 | after every run in which arriving claims have version 1 and elections are between claims admitted since the last rollback, all derived fields are functions of the stored chain |
| `NodeLedgers.AdoptSolventExactly` | l1-chain/node/src/main.rs:1970-1990 | really executing a valid block gives its header's root; the log stays rebuildable if and only if nothing stale is at its height |
| `NodeLedgers.RollBackSolvent` | l1-chain/node/src/main.rs:1587-1603 | a permitted rollback reopens exactly the ledger the shorter chain executes to |
| `NodeLedgers.ExecutionFollowsTip` | l1-chain/node/src/main.rs:865-883 | a claim checked on one chain executes alike on every chain with the same tip hash |
| `NodeLedgers.HonestClaimIsAccepted` | l1-chain/node/src/main.rs:1850-1889 | a node on the same tip accepts what the mining loop builds if and only if its clock and its Bitcoin view allow it |
| `NodeElections.WinnerExecutes` | l1-chain/node/src/main.rs:1962-1982 | in every disciplined run the elected claim links to the stored chain and executes in full on the node's ledger to the root it commits to, so no pre-validated transaction fails |
| `NodeElections.TipRootAfterAdoption` | l1-chain/node/src/main.rs:1965-1990 | the ledger's own root is the tip header's whenever the last move of the tip was an adoption among fresh claims within the u64 limits, clean log or not |
| `NodeLedgers.SoundWinnerExecutes` | l1-chain/node/src/main.rs:1962-1976 | from any sound state, an elected claim that extends the tip executes on the current ledger as it was checked, however old it is |
| `NodeLedgers.StepKeepsSound` | l1-chain/node/src/main.rs:1457-2090 | a step that elects extensions within the u64 limits keeps chain, ledger, log and claims right if and only if nothing stale is left at the height it adopts; rollbacks always do |
| `NodeLedgers.EveryOrderlyRunIsSound` | l1-chain/node/src/main.rs:1198-1337 | after every disciplined run that appends cleanly within the u64 limits, the ledger's own root is the tip header's and balances sum to the coins mined |
| `NodeSchedules.RewardIsScheduled` | l1-chain/core/src/rewards.rs:36-42 | with the coins so far on schedule the reward depends on the height alone |
| `NodeSchedules.ReopenedTotal` | l1-chain/core/src/rewards.rs:186-199 | reopening a log of scheduled rewards at any paid height finds min(50 per height, cap), whatever transfers and repeated rewards it holds |
| `NodeSchedules.TotalFollowsSchedule` | l1-chain/node/src/main.rs:1457-2090 | after every run whose synced records name scheduled rewards, rollbacks of any kind included, exactly min(50 per height, cap) coins are mined |
| `NodeSchedules.EveryScheduledRunIsOrderly` | l1-chain/node/src/main.rs:1631-2092 | disciplined runs that sync scheduled rewards and roll back transfer-free blocks append cleanly, before and after the cap, and balances sum to min(50 per height, cap) |
| `NodeRuns.NoTransactionIsLost` | l1-chain/node/src/main.rs:1433-1446 | after every run whatsoever, what was ever in a stored block is in a stored block or the mempool |
| `NodeRuns.ReconcileIsARun` | l1-chain/node/src/main.rs:1457-1628 | whatever a peer answers, a reorganisation is at most one permitted rollback followed by sync steps |
| `NodeRuns.ReconcileKeepsConsistent` | l1-chain/node/src/main.rs:1457-1628 | a whole reorganisation holds every transaction, even when sync stops short, and keeps a consistent node consistent |
| `NodeRuns.VersionIsNotChecked` | l1-chain/node/src/main.rs:768-904 | no verdict on a claim depends on its header version |
| `NodeRuns.OtherVersionsNeverSync` | l1-chain/node/src/main.rs:1119-1155 | a block finalised from a claim of another version is refused by every syncing node |
| `NodeRuns.StaleClaimSurvivesReorg` | l1-chain/node/src/main.rs:1609 | a claim above the tip outlives a rollback and resync, no longer extends the tip, and breaks the chain when it is finalised |
| `NodeFailures.StaleElectionBreaksTheChain` | l1-chain/node/src/main.rs:1609-1610 | six events from genesis after which a stale claim is finalised and the node is not consistent, though it was until then |
| `NodeFailures.StaleTransferChangesTheLedger` | l1-chain/core/src/rewards.rs:186-206 | four events from genesis after which the node and its chain are right and the log reopens to another ledger |
| `NodeFailures.PaymentIsAppliedTwice` | l1-chain/core/src/rewards.rs:186-206 | four events from genesis that mine a rolled-back payment again: the node, its chain and every nonce are right, and the log reopens to 30 and 70 coins where the chain has 40 and 60 |
| `NodeFailures.StaleTransfersMayCancel` | l1-chain/core/src/rewards.rs:186-206 | a log with a block's transfers replayed twice that still reopens to the right ledger |
| `NodeRuns.SyncKeepsCapExactly` | l1-chain/node/src/main.rs:1273-1290 | in every state, after a synced block the total is under the cap if and only if the named reward fits, saturating rewards included |
| `NodeRuns.SyncCreditsAnyReward` | l1-chain/node/src/main.rs:1254-1295 | for every node state and every reward that fits a u64 there is an acceptable record paying it |
| `NodeRuns.FinaliseKeepsCap` | l1-chain/node/src/main.rs:1853-1854 | finalised blocks keep the total under the cap |
| `NodeHistories.NonceIsSpentOnce` | l1-chain/core/src/rewards.rs:321-330 | no sender spends one nonce twice on a valid chain, in one block or in two |
| `NodeConfirmations.RollBackKeepsApart` | l1-chain/node/src/main.rs:1433-1446 | a permitted rollback of any accounted state requeues exactly the ids of the dropped blocks, none of which a kept block confirms |
| `NodeConfirmations.EnqueueKeepsApart` | l1-chain/node/src/main.rs:524-562 | nothing already confirmed enters the mempool, also on a ledger that reopened wrongly |
| `NodeConfirmations.NeverWaitingAndConfirmed` | l1-chain/node/src/main.rs:1992-2005 | after every run that elects fresh claims and adopts nonces with successors, no transaction is both confirmed and waiting, and every confirmed one is spent on the ledger and logged at its height |
| `NodeConfirmations.ConfirmedOnce` | l1-chain/core/src/rewards.rs:321-330 | after every such run no stored chain holds one nonce of a sender twice, in one block or in two |
| `NodeConfirmations.DisciplinedRunsAreFresh` | l1-chain/node/src/main.rs:1457-2090 | disciplined runs of at most 2^64 / 2001 events are such runs: no nonce can reach the last u64 in them |
| `NodeConfirmations.ReorgKeepsApart` | l1-chain/node/src/main.rs:1457-1628 | a whole reorganisation keeps it so from any accounted state, whatever the dropped and synced blocks carry |
| `NodeHistories.LogRebuildsTheLedger` | l1-chain/core/src/rewards.rs:115-207 | after any orderly run of appends and rollbacks the log scoped to the tip reopens to the ledger of the canonical blocks |
| `NodeHistories.WorkIsExact` | l1-chain/node/src/main.rs:1967 | adopting a linking block adds exactly two to its difficulty; neither the saturation nor the 127-bit cap takes effect |
| `NodeHistories.RollBackWorkIsExact` | l1-chain/node/src/main.rs:1552-1600 | a rollback subtracts exactly the work of the dropped blocks |
| `Nodes.BlockStore.GetRange` | l1-chain/node/src/store.rs:159-174 | the rows in range, ascending, cut at the limit |
| `Nodes.BlockStore.RollbackAbove` | l1-chain/node/src/store.rs:209-221 | a row stays, unchanged, exactly when it is not above the height, and every later range read is the earlier one cut off there |
| `Nodes.Node.AcceptSignedClaim` | l1-chain/node/src/main.rs:768-904 | the first failing check in order, or the claim kept as its miner's only one for the height |
| `Nodes.Node.ProposeCandidate` | l1-chain/node/src/main.rs:1847-1897 | the claim built on the tip from the filtered candidates, inserted unless the miner already has one |
| `Nodes.ElectedIsUnbeaten` | l1-chain/node/src/main.rs:157-168 | in whatever order a hash map yields them, the election ends with a candidate no candidate is better than, and with none only when there is none |
| `Nodes.Node.ElectWinner` | l1-chain/node/src/main.rs:157-168 | the loop meets each candidate once and returns an unbeaten one, none only when there is none |
| `Nodes.Node.FinaliseWinner` | l1-chain/node/src/main.rs:1908-2090 | the node takes the finalise step for that order |
| `Nodes.Node.SyncOne` | l1-chain/node/src/main.rs:1198-1337 | the record's first failing check, or the node after adopting it |
| `Nodes.Node.SyncOnePage` | l1-chain/node/src/main.rs:1191-1340 | a page is applied up to its first bad record, which stops the sync |
| `Nodes.Node.SyncFromPeer` | l1-chain/node/src/main.rs:1156-1345 | pages are applied until the target, an empty page or a bad record |
| `Nodes.Node.LocateForkPoint` | l1-chain/node/src/main.rs:1497-1523 | the loop finds the fork point, or none when an answer or a row is missing |
| `Nodes.Node.RequeueRolledBack` | l1-chain/node/src/main.rs:1433-1446 | every transaction of the dropped blocks is put back under its id |
| `Nodes.Node.RollBackTo` | l1-chain/node/src/main.rs:1549-1620 | the node after the rollback, or unchanged when a needed row is missing |
| `Nodes.Node.Reconcile` | l1-chain/node/src/main.rs:1457-1628 | the node after reconciling with a chosen heavier peer |
| `NodeLoops.TakeTurn` | l1-chain/node/src/main.rs:1786-2090 | one turn of the mining loop, with whatever peers and clients send meanwhile, leaves the object in the state of a run |
| `NodeLoops.Mine` | l1-chain/node/src/main.rs:1631-2092 | a node object started from genesis is consistent after every disciplined run of turns, and after an orderly one its root is the tip header's and its balances add up |
| `Nodes.Node.EnqueueTransaction` | l1-chain/node/src/main.rs:524-562 | a transaction is queued under its id, or the mempool stays as it was |
| `OracleInvariants.RemoveActiveKeepsIndex` | l1-chain/Solidity/BinaOracle.sol:361-377 | swap-and-pop removes exactly one publisher and keeps list and index inverse |
| `OracleInvariants.IndexedHasNoDuplicates` | l1-chain/Solidity/BinaOracle.sol:333-377 | the active list has no duplicates |
| `OracleInvariants.DepositKeepsBooks` | l1-chain/Solidity/BinaOracle.sol:333-343 | a deposit keeps ether equal to bonds, locks exact and the active list bonded |
| `OracleInvariants.WithdrawKeepsBooks` | l1-chain/Solidity/BinaOracle.sol:345-355 | a withdrawal keeps the books, never underflows and never touches locked bond |
| `OracleInvariants.RequestKeepsBooks` | l1-chain/Solidity/BinaOracle.sol:381-409 | a commitment locks exactly one slash amount of a publisher that can cover it |
| `OracleInvariants.ResolveKeepsBooks` | l1-chain/Solidity/BinaOracle.sol:411-437 | resolving unlocks exactly once, pays a slash exactly when the target was missed, and never underflows |
| `OracleInvariants.AttestersAgree` | l1-chain/Solidity/BinaOracle.sol:479-538 | whoever attests a block hash attests one fingerprint, and each publisher once |
| `OracleInvariants.SubmitKeepsFeed` | l1-chain/Solidity/BinaOracle.sol:479-538 | a submission keeps storage equal to the finalised outputs, with unique hashes and nullifiers and a met quorum, and each purpose at its maximum height |
| `OracleInvariants.CallKeepsInv` | l1-chain/Solidity/BinaOracle.sol:301-538 | every call from an invariant state keeps the invariant, never underflows and lets no purpose's height fall |
| `OracleInvariants.EveryRunKeepsInv` | l1-chain/Solidity/BinaOracle.sol:288-538 | every reachable state has exact locks and books, an inverse index, distinct attesters and correct latest outputs |
| `OracleInvariants.ReachedIsNeverSlashed` | l1-chain/Solidity/BinaOracle.sol:411-437 | after any later run, resolving a commitment whose target was reached moves no bond and no ether |
| `OracleInvariants.ResolvesAtMostOnce` | l1-chain/Solidity/BinaOracle.sol:411-437 | a resolved commitment refuses every later resolution |
| `OracleInvariants.FinalisesAtMostOnce` | l1-chain/Solidity/BinaOracle.sol:479-538 | a finalised output never changes and its block hash refuses every later submission |
| `OracleInvariants.AttestersWerePublishers` | l1-chain/Solidity/BinaOracle.sol:451-510 | every attester of a block hash was an authorised publisher when it attested the fingerprint now pending |
| `OracleInvariants.FinalisedByPublishers` | l1-chain/Solidity/BinaOracle.sol:451-538 | every attester of a finalised output was an authorised publisher when it attested exactly that output |
| `Oracles.BinaOracle.SetPublisher` | l1-chain/Solidity/BinaOracle.sol:306-313 | storage after authorising or removing a publisher; the invariant is kept and ether refused |
| `Oracles.BinaOracle.DepositBond` | l1-chain/Solidity/BinaOracle.sol:333-343 | storage after a deposit, activation included; the invariant is kept |
| `Oracles.BinaOracle.WithdrawBond` | l1-chain/Solidity/BinaOracle.sol:345-355 | storage after a withdrawal, or unchanged with its error; the invariant is kept, nothing underflows, ether is refused |
| `Oracles.BinaOracle.RemoveActivePublisher` | l1-chain/Solidity/BinaOracle.sol:361-377 | the swap-and-pop on array and index |
| `Oracles.BinaOracle.RequestFuturePublication` | l1-chain/Solidity/BinaOracle.sol:381-409 | the assigned publisher, its lock and the commitment stored; the invariant is kept, nothing underflows, ether is refused |
| `Oracles.BinaOracle.ResolveFutureCommitment` | l1-chain/Solidity/BinaOracle.sol:411-437 | unlock or slash, and the removal from rotation that follows; the invariant is kept, nothing underflows, ether is refused |
| `Oracles.BinaOracle.SubmitOutputForPurposes` | l1-chain/Solidity/BinaOracle.sol:462-538 | attestation and, at quorum, every storage write of a finalised output; the invariant is kept and ether refused |
| `Oracles.BinaOracle.SubmitOutput` | l1-chain/Solidity/BinaOracle.sol:451-460 | the same for a single purpose |
| `Oracles.BinaOracle.TransferOwnership` | l1-chain/Solidity/BinaOracle.sol:301-304 | the new owner, or unchanged storage with its error |
| `Oracles.BinaOracle.SetRequireFalcon` | l1-chain/Solidity/BinaOracle.sol:315-318 | the new requirement, or unchanged storage with its error |
| `Oracles.BinaOracle.SetQuorumThreshold` | l1-chain/Solidity/BinaOracle.sol:323-327 | the new non-zero quorum, or unchanged storage with its error |
| `Oracles.BinaOracle.UpdatePurposeSeeds` | l1-chain/Solidity/BinaOracle.sol:678-690 | the loop advances exactly the named purposes |
| `IdentityInvariants.RegisterKeepsLinks` | l1-chain/Solidity/FastPathIdentityBina.sol:264-304 | a registration keeps links agreeing and the fee books balanced |
| `IdentityInvariants.FinalizeKeepsLinks` | l1-chain/Solidity/FastPathIdentityBina.sol:704-721 | a relink takes effect two hours or more after the last change and hands control to the caller |
| `IdentityInvariants.RegisterKeyKeepsInverse` | l1-chain/Solidity/FastPathIdentityBina.sol:325-366 | registering a key keeps both address maps inverse on active keys |
| `IdentityInvariants.RotateKeyKeepsInverse` | l1-chain/Solidity/FastPathIdentityBina.sol:372-420 | so does a rotation, which waits out the cooldown |
| `IdentityInvariants.DeactivateKeyKeepsInverse` | l1-chain/Solidity/FastPathIdentityBina.sol:423-434 | so does deactivating a key |
| `IdentityInvariants.MoneyKeepsBalance` | l1-chain/Solidity/FastPathIdentityBina.sol:562-624 | fees plus pending withdrawals stay equal to the tracked ether, and no payout exceeds it |
| `IdentityInvariants.CallKeepsInv` | l1-chain/Solidity/FastPathIdentityBina.sol:264-730 | every call keeps the invariant and the write-once links |
| `IdentityInvariants.EveryRunKeepsInv` | l1-chain/Solidity/FastPathIdentityBina.sol:229-730 | every reachable registry state satisfies the invariant |
| `IdentityInvariants.ChangesAreTwoHoursApart` | l1-chain/Solidity/FastPathIdentityBina.sol:654-721 | two transactions of a run that both change a hash160's controller are at least two hours apart |
| `IdentityInvariants.ControlsAtMostOne` | l1-chain/Solidity/FastPathIdentityBina.sol:440-443 | an address controls at most one identity, the one `hasControl` answers for |
| `IdentityInvariants.LinkIsForLife` | l1-chain/Solidity/FastPathIdentityBina.sol:264-304 | an address once linked can never control any other identity |
| `IdentityInvariants.LostControlIsForever` | l1-chain/Solidity/FastPathIdentityBina.sol:704-714 | an address that lost control never controls any identity again, its own included |
| `IdentityInvariants.ActiveKeysAreDistinct` | l1-chain/Solidity/FastPathIdentityBina.sol:325-434 | two active keys never share a BINA address |
| `Identities.FastPathIdentity.constructor` | l1-chain/Solidity/FastPathIdentityBina.sol:229-237 | the deployed registry |
| `Identities.FastPathIdentity.RegisterBitcoinAddress` | l1-chain/Solidity/FastPathIdentityBina.sol:264-304 | storage after a registration, or unchanged with its error |
| `Identities.FastPathIdentity.RegisterBinaKey` | l1-chain/Solidity/FastPathIdentityBina.sol:325-366 | storage after registering a key, or unchanged with its error |
| `Identities.FastPathIdentity.RotateBinaKey` | l1-chain/Solidity/FastPathIdentityBina.sol:372-420 | storage after a rotation, also one that keeps its address |
| `Identities.FastPathIdentity.DeactivateBinaKey` | l1-chain/Solidity/FastPathIdentityBina.sol:423-434 | storage after a deactivation |
| `Identities.FastPathIdentity.SetReceivePreference` | l1-chain/Solidity/FastPathIdentityBina.sol:549-553 | the caller's preference is set and no other |
| `Identities.FastPathIdentity.ReceiveFunds` | l1-chain/Solidity/FastPathIdentityBina.sol:562-576 | the controller's pending funds grow by the value sent, or the call fails |
| `Identities.FastPathIdentity.WithdrawPendingFunds` | l1-chain/Solidity/FastPathIdentityBina.sol:598-605 | the caller's pending funds are paid out in full |
| `Identities.FastPathIdentity.WithdrawFees` | l1-chain/Solidity/FastPathIdentityBina.sol:617-624 | the fees are paid out in full to the owner |
| `IdentityInvariants.ReceivedEtherIsFees` | l1-chain/Solidity/FastPathIdentityBina.sol:1040-1042 | ether sent plainly leaves with the fees at the owner's next withdrawal, and what stays is exactly the pending withdrawals |
| `Identities.FastPathIdentity.Administer` | l1-chain/Solidity/FastPathIdentityBina.sol:611-663 | the settings, their bounds and the two-step ownership transfer |
| `Identities.FastPathIdentity.InitiateRelink` | l1-chain/Solidity/FastPathIdentityBina.sol:669-702 | the first failing check, or the pending relink with its unlock time |
| `Identities.FastPathIdentity.FinalizeRelink` | l1-chain/Solidity/FastPathIdentityBina.sol:704-721 | the new controller, or unchanged storage with its error |
| `Identities.FastPathIdentity.CancelRelink` | l1-chain/Solidity/FastPathIdentityBina.sol:723-730 | the controller removes a pending relink |

## Left out

- EveryRunIsConsistent: assumes the discipline on arriving claims and elections that the code does not enforce, and that a proposing node's clock is below the last u64 (`StepKeepsConsistent` says exactly when a step fails).
- EveryOrderlyRunIsSound: assumes clean appends and the u64 limits on nonces and the coin total (`StepKeepsSound` says exactly when a step within the limits fails; `EveryScheduledRunIsOrderly` gives runs that never do). Its root clause needs no clean log after an adoption (`TipRootAfterAdoption`); what is open is the time between a rollback onto an unclean log and the next block.
- NeverWaitingAndConfirmed: assumes elections among claims admitted since the last rollback, which the code does not enforce, and adopted nonces below the last u64, which `DisciplinedRunsAreFresh` derives for runs of realistic length.
- AppendKeepsLogExactly: is exact for the rows selected; for the accounts it is sufficient, and `AccountsReopenExactly` is exact only where replaying the rows in scope saturates nowhere.
- Cryptography: BLAKE3, Ed25519, Falcon, ecrecover, keccak and key decompression are outcomes or free terms; a transaction id binds the transfer and the signature but not the public key, as in the code.
- The f64 logarithm of the retarget: the model uses the exact integer rule that it rounds.
- The byte-level state root: it commits to the map of accounts, which the code hashes in sorted order.
- Plain additions on u64 wrap, as in a release build; a debug build would stop instead.
- CSV and SQLite failures, malformed rows, the unique block-hash index and the signed heights of the tables: writes succeed and the log holds what was appended.
- HTTP handlers, gossip, peer choice, rate limits, the dashboard, the wallet tools and the miner's thread racing: I/O.
- Live Bitcoin fetching and clocks: inputs of the steps, with a clock reading for every record a peer sends.
- The pinned Bitcoin tip height: an input of the plausibility check; only the pinned seed is tracked.
- Copies of the loop's variables in the shared node state, and claims arriving while a block is being finalised: steps are atomic.
- The nullifier set, block telemetry, persisted mempool and restart through `chain-state.json`.
- An empty candidate set when finalising: the code stops with a panic, the model stays put.
- Oracle utility requests, word derivation, shuffling, views and event emission: easy members over the feed.
- Re-entrancy and u256 overflow in the contracts: calls are atomic and counters unbounded; a failed payout reverts the call.
- Token transfers and rescues of the identity registry: calls into other contracts.
