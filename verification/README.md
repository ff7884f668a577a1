# Verified model of the QBit Network ledger

This project models the core of the QBit Network node in Dafny and proves what it is meant to keep:
the ledger as a state machine over blocks, its reversal and reorganisation, the Merkle tree and the
state trie that commit to it, and the pool, fees, validator choice, finality and rate limiter around
it. `dafny verify dfyconfig.toml` checks everything.

The node is modelled in its in-memory mode, with the financial layer and tokens active from genesis.
Tables that a Python dictionary holds are finite maps read through a default (`Maps`). Each part of
the ledger is described twice. A specification on values says what a transaction, a block and its
reversal do (`Money`, `Staking`, `Tokens`, `Notary`, `Epoch`, `Ledger`), and the laws are proved about
it. A class with the program's own fields, loops and leftovers (zero entries, empty inner tables,
recorded nonces of -1, dirty flags) is proved to do exactly that (`BalanceLedger`, `StakeTable`,
`TokenTable`, `NotaryTable`, `TxIndex`, `StateTrie`, `Blockchain`, `TxPool`). The mixins of the one
Python object are component objects of `Blockchain`.

Where to start reading: `Ledger.dfy` (a block and its reversal), `LedgerUndo.dfy` (when undo is
exact), `LedgerChain.dfy` (laws of whole chains), `Blockchain.dfy` (the object), `Merkle.dfy`,
`StateRoot.dfy`, `TxPool.dfy`, `Statement.dfy` and `History.dfy` (what the state of a chain says about
its blocks), and `Reachable.dfy` for accepted blocks that show where laws fail.

## What the proofs show about the code

The main laws hold as stated in the table below. Where a law one would expect fails, the model keeps
the code and the project proves exactly when it does hold:

- A block is undone exactly if and only if nothing matured in it, it shared out no epoch rewards, the
  supply left still covers its reward, every UNSTAKE was covered by its stake and its total, and no
  stake or token reversal hits its floor at zero (`LedgerUndo.UndoExact`).
  `StakingLaws.StakeAndUnstakeNotUndone` is a two-transaction block that is not undone, because stakes
  are reversed in the original order; `StakingLaws.UncoveredUnstakeNotUndone` is one UNSTAKE whose
  reversal leaves a stake that was never there.
- A boundary block that is refused is paid back: its record leads from the balances before the payout to
  those after it, and the reversal gives back every balance, whatever was paid out
  (`LedgerUndo.PayoutReturns`, `Blockchains.Blockchain.AppendBlock`). What it does not give back are the
  rewards that the payout consumed: they are set to zero before the block is refused and stay zero, so
  that the next payout misses them (`LedgerUndo.UndoExactOnRecord` says what is restored, and when).
- The record of an epoch payout is looked up by epoch number but pruned against a height
  (`blockchain.py:1239-1245`), so the block that makes the record also drops it. No rollback of a
  committed boundary block ever reverses its payout; `Blockchains.Blockchain.KeepAndPrune` and the
  invariant `Valid` show that no record survives a block.
- A block refused because one of its transactions fails is rolled back as a whole, the reward it never
  minted included. The minted counter ends too low by that reward, and so is restored if and only if
  the reward is zero (`LedgerChain.FailedBlockUnmints`, `Blockchains.Blockchain.AppendBlock`).
  `ReachableFailures.AcceptedBlockUnmints` is a block right after genesis that validation accepts, that fails,
  and that leaves the counter 5,000,000,000 too low.
- An UNSTAKE beyond its validator's recorded total creates coins (`StakingLaws.UncoveredUnstakeCreates`).
  Validation never compares an UNSTAKE with a stake, so that an accepted block right after genesis can do
  it (`ReachableFailures.AcceptedUnstakeCreates`); the pool compares each UNSTAKE with the recorded stake
  only, not with other pending UNSTAKEs. Conservation is therefore an equation with that amount in it
  (`LedgerLaws.ApplyConserves`), and it is bounded: no run of up to 2^44 transactions overflows the
  encoding of the state (`LedgerChain.NeverOverflows`).
- The root check after the rollback in `try_reorg` compares the trie with the snapshot it was just
  restored from. `RollbackTo` leaves the two equal whatever has become of the ledger, so the check cannot
  fail (`Blockchains.Blockchain.AncestorRootMatches`), and the branch that restores deep copies is never
  taken. The two checks of `_rollback_to` see neither an epoch payout nor a token balance that comes back
  wrong (`LedgerChain.ChecksMiss`): `ReachableFailures.WrongTokensPass` is an accepted block whose
  rollback passes all three checks and leaves ten of a token that no longer exists.
- At an epoch boundary the payout comes before the transactions. A pool whose senders' balances cover it
  can therefore still yield a block that fails for want of money, when one of its senders is a validator
  that pays (`PoolLaws.PayoutComesFirst`). Solvency holds for every sender whose balance covers both
  (`PoolLaws.SolventThroughBlock`).
- Under the dynamic model no ISSUE_TOKEN and no REGISTER_VALIDATOR is ever accepted in a block: each
  weighs more than a whole block may (`Validation.NeverFits`).
- Clearing the trie for a rebuild does not mark it dirty, so a rebuild into an empty trie would serve
  the old root. `StateRoots.RebuildStateTrie` says exactly when, and `LedgerChain.NeverEmpty` shows that
  this state is not reached with the financial layer active from genesis.
- A trie leaf hashes key and value without a separator, so roots commit only because all values have
  one width (`StateTries.RootCommits`, `StateTries.RootAmbiguity`). For the same reason a proof can be
  given for exactly the pairs whose key and value, run together, are those of a pair in the trie
  (`StateTries.ProvableIff`). With values of the trie's width these are the pairs in the trie, but
  `verify_proof` takes any value from its caller, and for a shorter one an absent pair is provable: the
  first byte of a value passes for the last character of its key (`StateTries.AbsentPairProvable`).
  The pattern for token ids lets one
  trailing newline pass; keys stay unambiguous nevertheless (`StateRoots.ParseFormat`).
- `cleanup` of the rate limiter is invisible on every run if and only if a burst refills within the time
  to live, or is less than one token, when nothing is ever allowed (`RateLimiting.CleanupInvisibleIff`).
- The choice of transactions for a block under the dynamic model looks neither at the share of the
  producer's own transactions nor at nonces. The block it gives passes the checks of its body if and only
  if that share is within its limit and no transaction was chosen without the earlier ones of its sender,
  which the fee filter may have dropped (`Producer.ProducedBody`, `Producer.ChoiceTakesHeads`).

## Modelling decisions

- SHA3-256 is a free constructor: equal digests have equal inputs. Signatures, chain ids, key
  revocations and headers are opaque predicates (`signed`, `links`, `headerOk`, `proofOk`).
- Clocks are parameters. The rate limiter's floats are reals; the equality with a limiter that never
  cleans up takes the clock read for a new bucket to be the one read by the call.
- Dictionary order matters nowhere: the loops over dictionaries pick keys in any order.
- `validate_payload` and the derivation of token ids from a hash enter as facts about transactions.
- The priority order of senders in a produced block is a parameter.

## Model

| member | source | states |
|---|---|---|
| Merkle.MerkleRoot | qbit_network/crypto/hashing.py:24-38 | the layered loop with odd promotion computes the Merkle Tree Hash of section 2.1 of RFC 6962, split at the largest power of two, for every list |
| Merkle.MerkleProof | qbit_network/crypto/hashing.py:41-66 | the index-tracking loop returns the audit path of section 2.1.1 of RFC 6962, and nothing for an index out of range |
| Merkle.VerifyMerkleProof | qbit_network/crypto/hashing.py:69-77 | the loop accepts exactly when the fold of the proof over the leaf hash is the root |
| Merkle.PairLayer | qbit_network/crypto/hashing.py:31-37 | one pass pairs neighbours and promotes an odd last element |
| Merkle.NextLayerKeepsTreeHash | qbit_network/crypto/hashing.py:30-37 | pairing a layer preserves its tree hash |
| Merkle.NextLayerKeepsAuditPath | qbit_network/crypto/hashing.py:51-65 | pairing a layer moves the audit path up by one entry, or by none for a promoted element |
| Merkle.AuditPathFolds | qbit_network/crypto/hashing.py:41-77 | completeness: the audit path of every index folds to the root |
| Merkle.AcceptedIffAuditPath | qbit_network/crypto/hashing.py:69-77 | soundness and completeness: a proof is accepted against the root of a list if and only if it is the audit path of an index where the list holds the leaf |
| Merkle.RootInjective | qbit_network/crypto/hashing.py:15-38 | the root is injective over lists of all lengths, so promotion causes no ambiguity |
| Merkle.AuditPathLength | qbit_network/crypto/hashing.py:41-66 | a proof has at most ceil(log2 n) entries |
| StateTries.RootCommits | qbit_network/core/state_tree.py:52-70 | with values of one width two tries have equal roots exactly when they hold the same pairs, the empty trie included |
| StateTries.RootAmbiguity | qbit_network/core/state_tree.py:135-140 | two different tries with values of different widths that share a root |
| StateTries.ProvableIff | qbit_network/core/state_tree.py:76-116 | a pair can be proved against the root if and only if its key and value, run together, are those of a pair in the trie, for every key and value |
| StateTries.ProvableIffPresent | qbit_network/core/state_tree.py:76-116 | for a value of the width of the trie those are exactly the pairs in the trie |
| StateTries.AbsentPairProvable | qbit_network/core/state_tree.py:107-116 | in every trie of one width, each entry whose value starts with an ASCII byte makes an absent pair provable, with that byte moved into the key |
| StateTries.StateTrie.Set | qbit_network/core/state_tree.py:35-40 | sets an entry, marks the trie dirty exactly when something changed, keeps the cache coherent |
| StateTries.StateTrie.Delete | qbit_network/core/state_tree.py:42-46 | removes an entry and keeps the cache coherent |
| StateTries.StateTrie.RootHash | qbit_network/core/state_tree.py:52-70 | the cached or recomputed root is the root of the current entries |
| StateTries.StateTrie.GetProof | qbit_network/core/state_tree.py:76-101 | a present key, and only such a key, gets a proof of its value that folds to the current root |
| StateTries.StateTrie.VerifyProof | qbit_network/core/state_tree.py:107-116 | accepts exactly the proofs that fold to the root |
| StateTries.StateTrie.Restore | qbit_network/core/state_tree.py:126-129 | the given entries, with a coherent cache |
| StateRoots.ParseFormat | qbit_network/core/state_ops.py:38-57 | the text of a trie key determines what it is about: balance, nonce, holding or supply, token and address |
| StateRoots.WordInjective | qbit_network/core/state_ops.py:38-57 | 8-byte big-endian values below 2^64 are told apart |
| StateRoots.WordReadsBack | qbit_network/core/state_ops.py:38-57 | a word read most significant byte first is the value it was made from |
| StateRoots.StateRootCommits | qbit_network/core/state_ops.py:21-57 | two sets of tables have equal state roots exactly when they show equal balances, nonces, token balances and supplies |
| StateRoots.RebuildStateTrie | qbit_network/core/state_ops.py:21-57 | the four loops raise exactly when something cannot be encoded and otherwise leave exactly the entries of the tables; the cache afterwards is coherent exactly under the stated condition |
| StateRoots.SetBalances | qbit_network/core/state_ops.py:32-38 | the balance loop skips negative balances and raises on the first that does not fit |
| StateRoots.SetNonces | qbit_network/core/state_ops.py:39-44 | the nonce loop, likewise |
| StateRoots.SetHoldings | qbit_network/core/state_ops.py:48-52 | the token balance loop shows positive balances only and refuses ill-formed token ids |
| StateRoots.SetSupplies | qbit_network/core/state_ops.py:53-57 | the supply loop shows every registered token |
| Fees.EffectiveWeight | qbit_network/core/fees.py:15-23 | the weight without the validator's own transactions is at most the total weight |
| Fees.ComputeTxFee | qbit_network/core/fees.py:52-62 | the fee lies between the base fee and the offered maximum, times the weight |
| Fees.TipIsPaid | qbit_network/core/fees.py:52-62 | the price per weight is the base fee plus the offered priority, within the base fee and the offered maximum |
| Fees.BaseFeeBounds | qbit_network/core/fees.py:32-49 | the base fee stays in [1, 10000] and moves by at most max(1, parent/8) |
| Fees.BaseFeeExact | qbit_network/core/fees.py:32-49 | the base fee moves by exactly its part for the weight that the target of 10,000,000 is missed by, over 80,000,000, up by at least one and down rounded, within 1 and 10,000 |
| Fees.HeavyBlocksRaise | qbit_network/core/fees.py:41-44 | any weight above the target raises the base fee, a full block by an eighth; weight on target keeps it |
| Fees.FullBlocksRise | qbit_network/core/fees.py:41-49 | under full blocks the base fee rises strictly to exactly 10,000 and stays there |
| Fees.BaseFeeMonotoneInWeight | qbit_network/core/fees.py:32-49 | a heavier parent never lowers the next base fee |
| Fees.BaseFeeMonotoneInParent | qbit_network/core/fees.py:32-49 | a higher parent fee never lowers the next base fee |
| Fees.EmptyBlocksFallToSeven | qbit_network/core/fees.py:45-49 | under empty blocks the base fee falls strictly to exactly 7 from any start of at least 8 and stays there |
| Fees.ChainBaseFees | qbit_network/core/consensus.py:166-188 | on every chain of fee-checked blocks each base fee after activation is in bounds and moves by at most max(1, parent/8) |
| Fees.ChainBaseFeeIs | qbit_network/core/consensus.py:166-188 | the first dynamic block of a fee-checked chain carries a base fee of 10, each later one what follows from the block below it without its validator's own transactions |
| Selection.SelectDpos | qbit_network/core/consensus.py:78-95 | the walk returns the one validator whose interval of points holds seed mod total; the fallback is never reached |
| Selection.OneOwner | qbit_network/core/consensus.py:86-94 | every point belongs to exactly one validator |
| Selection.StakeProportional | qbit_network/core/consensus.py:86-94 | over any number of seeds a validator is chosen between stake*floor(seeds/total) and stake*(floor(seeds/total)+1) times |
| Finality.FinalityTracker.UpdateFinality | qbit_network/core/receipt_ops.py:128-157 | the walk sets the greatest height above the old one since which distinct validators hold more than two thirds of the stake, and never lowers it |
| Finality.QuorumMonotone | qbit_network/core/receipt_ops.py:140-152 | a quorum since a height is a quorum since every lower one |
| Finality.QuorumsIntersect | qbit_network/core/receipt_ops.py:152 | two quorums over one stake table share more than a third of the stake |
| Finality.QuorumIff | qbit_network/core/receipt_ops.py:140-152 | blocks have a quorum if and only if the validators that built none of them hold less than a third of the stake |
| Finality.FinalizedTogether | qbit_network/core/receipt_ops.py:128-157 | two chains finalized at any heights over the same stakes share validators with more than a third of the stake that built on both from there on |
| RateLimiting.WindowBound | qbit_network/network/rate_limiter.py:90-107 | over any run the calls allowed in a window of length t number at most burst + rate*t |
| RateLimiting.BurstIsReached | qbit_network/network/rate_limiter.py:97-100 | a full bucket allows its burst at once, so the bound is reached |
| RateLimiting.ViolationsAreRefusals | qbit_network/network/rate_limiter.py:97-107 | over any run the violations of a bucket grow by exactly the refused calls |
| RateLimiting.SteadyIsAllowed | qbit_network/network/rate_limiter.py:90-100 | a caller no faster than the rate is never refused |
| RateLimiting.CleanupIsInvisible | qbit_network/network/rate_limiter.py:121-138 | when burst <= 300*rate a limiter that drops stale buckets answers every run like one that never does |
| RateLimiting.CleanupVisibleWhenSlow | qbit_network/network/rate_limiter.py:121-138 | for every burst of a token or more that takes longer than the time to live to refill, some run of checks and cleanups shows the cleanups |
| RateLimiting.CleanupInvisibleIff | qbit_network/network/rate_limiter.py:121-138 | for every rate and burst cleanups are invisible on all runs if and only if burst <= 300*rate or burst < 1 |
| RateLimiting.RateLimiter.Check | qbit_network/network/rate_limiter.py:74-107 | answers as the bucket of the key does; the key becomes the most recently used one, and a new one displaces exactly one other, and only at the cap |
| RateLimiting.RateLimiter.EvictOne | qbit_network/network/rate_limiter.py:53-68 | evicts the oldest key without violations, or the oldest of all, and keeps the order of the rest |
| RateLimiting.RateLimiter.Cleanup | qbit_network/network/rate_limiter.py:121-138 | drops exactly the stale buckets, keeps the order of the rest, returns their number |
| MoneyLedger.BlockReward | qbit_network/core/ledger.py:74-80 | the reward is at most the nominal one and never lifts the minted amount above the cap |
| MoneyLedger.MoneyTxsConserve | qbit_network/core/blockchain.py:838-872 | fees under both models, transfers and stakes: balances and burned coins change only by what is staked |
| MoneyLedger.MoneyTxsPositive | qbit_network/core/ledger.py:19-40 | no balance is ever negative or kept at zero, whether the block goes through or fails |
| Statements.TxsStatement | qbit_network/core/blockchain.py:838-872 | what a block's transactions do to each account, read off them: fees and amounts sent, transfers received, the validator's part of every fee; the other half of each legacy fee is burned, and nothing of a dynamic one |
| Statements.GoesThroughIff | qbit_network/core/blockchain.py:838-872 | the money part of a block goes through if and only if each sender can pay, by its statement up to there, at each of its transactions |
| Statements.BlockStatement | qbit_network/core/blockchain.py:786-1155 | the statement of one account for a whole block: matured stakes, epoch payout, transactions and reward; the minted and burned counters |
| Statements.CountersOfChain | qbit_network/core/ledger.py:74-80 | on every chain the minted coins are those of the halving schedule for its length, capped, and the burned coins those of its legacy fees, whatever its blocks hold |
| Statements.RewardsOfEpoch | qbit_network/core/blockchain.py:1145-1154 | the rewards a boundary shares out are those its validators have earned since the last one |
| MoneyLedger.UndoVisitsForwardStates | qbit_network/core/rollback.py:199-235 | the reversal passes through the forward states in reverse order, so that no intermediate balance is negative |
| MoneyLedger.UndoRewardExact | qbit_network/core/rollback.py:190-194 | the recomputed reward is the minted one if and only if it was zero or the supply left covers the nominal reward |
| BalanceLedgers.BalanceLedger.Credit | qbit_network/core/ledger.py:19-25 | adds to one balance |
| BalanceLedgers.BalanceLedger.Debit | qbit_network/core/ledger.py:27-40 | takes from one balance exactly when it covers a non-negative amount |
| BalanceLedgers.BalanceLedger.DebitForRollback | qbit_network/core/ledger.py:42-57 | takes from one balance, which may go negative |
| BalanceLedgers.BalanceLedger.ChargeFee | qbit_network/core/blockchain.py:838-862 | pays a fee under the dynamic or the legacy model, half of the latter to the validator and half burned |
| BalanceLedgers.BalanceLedger.MoveAmount | qbit_network/core/blockchain.py:864-872 | moves the amount of a TRANSFER, STAKE or DELEGATE |
| BalanceLedgers.BalanceLedger.MintReward | qbit_network/core/blockchain.py:1140-1151 | mints and credits the capped reward |
| BalanceLedgers.BalanceLedger.TakeBackReward | qbit_network/core/rollback.py:190-194 | recomputes the reward from the raised counter and takes it back |
| BalanceLedgers.BalanceLedger.ReturnTxs | qbit_network/core/rollback.py:199-235 | reverses the balance part of a block, last transaction first, without negative balances when the state is the one the block led to |
| BalanceLedgers.BalanceLedger.ReverseDistribution | qbit_network/core/rollback.py:433-438 | takes recorded credits back and returns recorded debits |
| StakeLedger.UndoStakingExact | qbit_network/core/rollback.py:304-333 | stakes, totals and unbonding entries are restored if and only if every UNSTAKE was covered and no clamp fires on the way back |
| StakeLedger.UndoEntriesExact | qbit_network/core/rollback.py:327-333 | the filter removes exactly the unbonding entries the block made |
| StakeLedger.StakingTxsGets | qbit_network/core/blockchain.py:974-1020 | a block takes each stake and each total on a walk over its amounts with a floor at zero |
| StakeLedger.CoveredGets | qbit_network/core/blockchain.py:974-1020 | a covered block moves each stake and each total by the sum of its amounts |
| StakeLedger.CoveredIff | qbit_network/core/blockchain.py:994-1001 | every UNSTAKE of a block is covered if and only if no floor is hit on the way forward |
| Maps.ThereAndBack | qbit_network/core/rollback.py:311-326 | a counter taken up and down over the same amounts in the same order, with floors at zero, is back where it was if and only if neither walk dips below zero |
| StakeLedger.UndoStakingTxsGets | qbit_network/core/rollback.py:304-333 | its reversal is a walk over the same amounts in the same order with a floor at zero |
| StakingLaws.AddStakeKeepsBalance | qbit_network/core/blockchain.py:974-983 | STAKE and DELEGATE keep every total equal to the sum of its stakers |
| StakingLaws.UnstakeKeepsBalance | qbit_network/core/blockchain.py:989-1001 | UNSTAKE keeps it if and only if it is covered by the sender's stake or the sender is the only staker |
| StakingLaws.SlashGap | qbit_network/core/staking.py:114-149 | one slashing of n stakers separates total and sum by at most (n+1)/2, and both vanish together |
| StakingLaws.EvidenceHalves | qbit_network/core/staking.py:70-149 | proved evidence against a registered validator not punished before takes half of every stake on it, or all of a total of one; any other evidence changes nothing |
| StakingLaws.PunishedOnce | qbit_network/core/staking.py:70-74 | once a validator has been punished no later evidence against it does anything |
| StakingLaws.StakingTxsWorth | qbit_network/core/blockchain.py:974-1020 | stakes and unbonding entries together grow by what is staked and by uncovered UNSTAKEs and shrink by what is slashed |
| StakingLaws.OneSidedNoClamp | qbit_network/core/rollback.py:304-333 | no clamp fires for a block that does not both stake and unstake one account |
| StakingLaws.StakeAndUnstakeNotUndone | qbit_network/core/rollback.py:238-326 | a block that does both and is not undone |
| StakingLaws.UncoveredUnstakeNotUndone | qbit_network/core/rollback.py:318-326 | an UNSTAKE on an empty ledger whose reversal leaves a stake of its amount |
| StakingLaws.UncoveredUnstakeCreates | qbit_network/core/blockchain.py:1001-1010 | an UNSTAKE on an empty ledger that creates coins |
| ReachableFailures.AcceptedUnstakeCreates | qbit_network/core/blockchain.py:985-1010 | a block after genesis that validation accepts and that is applied raises the accounted coins by an UNSTAKE without a stake |
| StakeTables.StakeTable.Add | qbit_network/core/blockchain.py:974-983 | raises a stake and its total |
| StakeTables.StakeTable.Unstake | qbit_network/core/blockchain.py:985-1010 | lowers both with a floor at zero and queues the amount |
| StakeTables.StakeTable.UndoAdd | qbit_network/core/rollback.py:305-316 | lowers both with a floor at zero and drops what reaches it |
| StakeTables.StakeTable.UndoUnstake | qbit_network/core/rollback.py:318-333 | raises both and removes the queued entry |
| StakeTables.StakeTable.CutStakers | qbit_network/core/staking.py:121-135 | the slashing loop reduces every staker, dropping those that reach zero |
| StakeTables.StakeTable.ProcessEvidence | qbit_network/core/staking.py:70-184 | slashes a registered validator once, on valid proofs only, and removes it when nothing is left |
| StakeTables.StakeTable.ProcessMatureUnbondings | qbit_network/core/staking.py:320-335 | credits and drops exactly the matured entries, in order |
| Histories.QueueOfChain | qbit_network/core/blockchain.py:1001-1012 | on every chain the unbonding queue holds exactly what was unstaked in the last 100 blocks, in order |
| Histories.MaturesOnTime | qbit_network/core/staking.py:320-335 | what an account gets back in a block is what it unstaked 100 blocks before, no sooner and no later |
| Histories.RegistryOfChain | qbit_network/core/blockchain.py:889-930 | on every chain a validator's commission is the last one it registered, and registered is who said so last, or the genesis validator |
| TokenLedger.TokenTxsKeepOk | qbit_network/core/blockchain.py:1026-1114 | holdings of each token sum to its minted amount, within both caps, and symbols and ids are inverse |
| TokenLedger.TxsAuthorized | qbit_network/core/blockchain.py:1026-1114 | in a block that goes through only the issuer mints a token, only transferable tokens are sent, and the registry shows each token as it was issued |
| Histories.TokensOfChain | qbit_network/core/blockchain.py:1026-1114 | on every chain the tokens are those issued on it, each balance and supply is the sum of the mints and transfers there, and each of these was sent by someone who may |
| TokenLedger.UndoTokensExact | qbit_network/core/rollback.py:348-408 | supplies, registry and symbols are always restored, balances exactly under the stated per-account condition |
| TokenLedger.UndoHoldingExact | qbit_network/core/rollback.py:364-408 | one token balance is restored if and only if its walk never dips below zero or, for a token the block issues, no tail of its amounts is a net debit |
| TokenLedger.OneSidedRestored | qbit_network/core/rollback.py:364-408 | that condition holds for a block that does not both credit and debit an account |
| TokenTables.ProjectionsUnique | qbit_network/core/blockchain.py:746-761 | the two token indexes are determined by the accounts that hold something |
| TokenTables.TokenTable.UpdateTokenIndex | qbit_network/core/blockchain.py:746-761 | keeps both indexes the projections of the positive balances |
| TokenTables.TokenTable.ProcessTx | qbit_network/core/blockchain.py:1026-1114 | ISSUE, MINT and TRANSFER with their checks, indexes kept |
| TokenTables.TokenTable.UndoTx | qbit_network/core/rollback.py:348-408 | their reversal, indexes kept |
| TokenTables.TokenTable.UndoIssue | qbit_network/core/rollback.py:348-360 | drops a token, its symbol and every balance of it |
| NotaryLedger.NotaryTxsGets | qbit_network/core/blockchain.py:874-881 | the index is a projection of the notarizations in order |
| Histories.NotaryOfChain | qbit_network/core/blockchain.py:874-881 | on every chain the list of a document holds all its notarizations in order, and the first of them is on record |
| NotaryLedger.UndoNotaryExact | qbit_network/core/rollback.py:251-267 | the reversal restores the index, first notarizations included |
| NotaryTables.NotaryTable.ProcessTx | qbit_network/core/blockchain.py:874-881 | records a notarization |
| NotaryTables.NotaryTable.UndoTx | qbit_network/core/rollback.py:251-267 | takes it back and restores the first one |
| EpochPayout.PaidBounds | qbit_network/core/staking.py:222-249 | a validator pays at most its capped pool and keeps fewer coins of it than it has delegators |
| EpochPayout.PaysItsCommission | qbit_network/core/staking.py:207-249 | with the commission a validator has registered, or ten percent, it pays its rewards less that commission as far as its balance goes, up to less than a coin for each delegator, and each delegator gets its part by stake, rounded down |
| EpochPayout.DelegatorGets | qbit_network/core/staking.py:226-249 | an account that has delegated to one validator gets exactly that part and nothing else |
| Histories.PayoutOnChain | qbit_network/core/staking.py:188-269 | the same at the boundary after any chain, with the commission, the rewards and the balances read off the chain |
| EpochPayout.PayAllPositive | qbit_network/core/staking.py:204-254 | the payout keeps the sum of balances, makes none negative, and gives every account exactly its shares |
| EpochPayout.PayAllAdd | qbit_network/core/staking.py:204 | the order in which validators pay does not matter |
| EpochPayout.DistributeEpochRewards | qbit_network/core/staking.py:188-269 | the nested loops compute the payout, no debit fails, and the record tells exactly what was moved |
| EpochPayout.PayDelegators | qbit_network/core/staking.py:205-254 | one validator's turn |
| EpochPayout.ReversalRestores | qbit_network/core/rollback.py:430-438 | reversing a record restores every balance |
| Validation.ValidateBody | qbit_network/core/consensus.py:166-269 | the checks accept exactly the bodies with the derived base fee, weights within bounds, and transactions each in order |
| Validation.BodyOkIff | qbit_network/core/consensus.py:166-269 | an accepted body spelled out: all signed, well formed, new, in turn, at most 200; under the dynamic model each offers the base fee, the fee is the derived one, and at least three quarters of the weight are not the validator's |
| Validation.AllSigned | qbit_network/core/consensus.py:210-248 | every transaction of an accepted chain is signed and well formed |
| Validation.AcceptedFeeChecked | qbit_network/core/consensus.py:166-188 | an accepted chain passes the fee checks, so that the bounds on base fees hold on it |
| Validation.ValidateTxs | qbit_network/core/consensus.py:210-267 | the loop accepts exactly distinct, new, sound transactions whose nonces follow the recorded ones |
| Validation.NoncesGapFree | qbit_network/core/consensus.py:249-267 | on every accepted chain each sender's nonces are 0, 1, 2, ... in order |
| Validation.NoReplay | qbit_network/core/consensus.py:225-230 | on every accepted chain no transaction id occurs twice |
| Validation.NeverFits | qbit_network/core/consensus.py:166-209 | under the dynamic model no accepted body holds an ISSUE_TOKEN or a REGISTER_VALIDATOR |
| TxIndexes.ListScans | qbit_network/core/rollback.py:415-424 | a sender's list holds all that a scan of the chain would find |
| TxIndexes.TxIndex.ProcessTx | qbit_network/core/blockchain.py:823-835 | indexes a transaction and raises the recorded nonce outside the genesis block |
| TxIndexes.TxIndex.UndoTx | qbit_network/core/rollback.py:238-249 | takes one transaction out of the indexes |
| TxIndexes.TxIndex.RecomputeNonces | qbit_network/core/rollback.py:412-424 | recomputes the nonces of the senders of a block from what remains |
| Ledger.LedgerTxsParts | qbit_network/core/blockchain.py:823-1114 | the transactions act on balances, stakes, tokens, notary and nonces independently and succeed exactly when all debits and token checks do |
| Ledger.WaitingStays | qbit_network/core/staking.py:320-335 | the queue and the balances stay exactly when nothing matures |
| LedgerLaws.ApplyKeepsWellFormed | qbit_network/core/blockchain.py:786-1184 | every block keeps balances, stakes and rewards positive, the minted amount capped, the token and notary invariants, the epoch |
| LedgerLaws.ApplyConserves | qbit_network/core/blockchain.py:786-1151 | every block of any mix keeps balances + stakes + unbonding + burned - minted, up to uncovered UNSTAKEs and slashed coins |
| LedgerUndo.UndoExact | qbit_network/core/rollback.py:151-464 | the reversal gives back the whole state if and only if the block is restorable |
| LedgerUndo.UndoExactOnRecord | qbit_network/core/rollback.py:151-464 | with the record of its payout the reversal gives back the whole state, but for the rewards the payout consumed, if and only if nothing matured, the supply covers the reward, and stakes and tokens come back |
| LedgerUndo.PayoutReturns | qbit_network/core/rollback.py:426-438 | with that record it gives back every balance, both counters and all stakes, whatever was paid out |
| LedgerUndo.RescanRestores | qbit_network/core/rollback.py:412-424 | rescanning the senders of a block restores the nonce table |
| LedgerChain.ReplayOk | qbit_network/core/blockchain.py:786-1184 | the invariants hold in every state a chain leads to |
| LedgerChain.ChainConserves | qbit_network/core/rollback.py:26-35 | conservation over whole runs |
| LedgerChain.BalanceBounds | qbit_network/core/ledger.py:74-80 | every balance and every total lies in [0, MAX_SUPPLY + MIN_STAKE] when no UNSTAKE was uncovered |
| LedgerChain.NonceTableIsScan | qbit_network/core/blockchain.py:823-835 | in every state a chain leads to, the recorded nonce is the maximum a scan of the chain finds |
| LedgerUndo.TakenBackNonces | qbit_network/core/rollback.py:412-424 | taking a block back restores the nonce table, however far the block got |
| BlockFacts.UndoKeepsScan | qbit_network/core/rollback.py:412-424 | from any state whose nonces are those of a scan, taking the last block back leaves those of a scan of the rest |
| LedgerChain.FitsWithCreated | qbit_network/core/state_ops.py:38-57 | every value of an accepted run fits its 8 bytes as long as the coins created by UNSTAKEs leave room |
| LedgerChain.CreatedBound | qbit_network/core/blockchain.py:1001-1010 | a run creates at most the largest stake per transaction |
| LedgerChain.NeverOverflows | qbit_network/core/state_ops.py:38-57 | every value of an accepted run of up to 2^44 transactions fits its 8 bytes, whatever was unstaked |
| LedgerChain.RootsCommitToLedger | qbit_network/core/state_ops.py:21-57 | two chains have equal state roots exactly when they lead to equal balances, nonces, token balances and supplies |
| LedgerChain.RootsOfChain | qbit_network/core/blockchain.py:1174-1184 | every state root on a chain is the root of the state the chain up to it leads to |
| LedgerChain.HeaderCommits | qbit_network/core/state_ops.py:21-57 | two chains whose last blocks carry the same state root lead to equal balances, nonces, token balances and supplies |
| Histories.TrieOfChain | qbit_network/core/state_ops.py:21-57 | the trie of an accepted chain shows each balance, the last nonce of each sender, each holding and the supply of each token issued, and nothing else |
| LedgerChain.NeverEmpty | qbit_network/core/state_ops.py:31-38 | the rebuilt trie is never empty |
| LedgerChain.UndoOnChain | qbit_network/core/rollback.py:151-464 | undoing the last block gives the state of the shorter chain exactly when it is restorable |
| LedgerChain.PlainBlockRestorable | qbit_network/core/rollback.py:182-408 | plain conditions on a block that make it restorable |
| LedgerChain.UndoableConserves | qbit_network/core/rollback.py:78-96 | the conservation check of a rollback cannot fail for such blocks |
| LedgerChain.FailedBlockUnmints | qbit_network/core/blockchain.py:763-784 | a block that fails halfway costs the minted counter a reward that was never minted; the counter is restored if and only if that reward is zero |
| ReachableFailures.AcceptedBlockUnmints | qbit_network/core/blockchain.py:763-784 | after any genesis block, a block with a transfer by an account without coins is accepted by validation, fails, and leaves the counter 5,000,000,000 too low |
| Blockchains.Blockchain.constructor | qbit_network/core/blockchain.py:219-268 | after genesis the object is in order for its one-block chain |
| Blockchains.Blockchain.ProcessTxs | qbit_network/core/blockchain.py:823-1119 | the transaction loop refines the specification and stops at the first failure |
| Blockchains.Blockchain.CheckEpochTransition | qbit_network/core/staking.py:281-318 | at a boundary the payout is made from frozen balances, the record lists exactly its moves, and the rewards are forgotten |
| Blockchains.Blockchain.PayReward | qbit_network/core/blockchain.py:1140-1151 | mints the reward and adds it to the rewards of the epoch |
| Blockchains.Blockchain.KeepAndPrune | qbit_network/core/blockchain.py:1190-1245 | keeps a snapshot and drops snapshots and payout records that are too old by height |
| Blockchains.Blockchain.AppendBlockInner | qbit_network/core/blockchain.py:786-1255 | the ledger moves as the specification says; an applied block leaves the object in order for the longer chain |
| Blockchains.Blockchain.AppendBlock | qbit_network/core/blockchain.py:763-784 | a refused block is taken back as a whole from where it stopped; one refused for its root leaves no trace when it can be undone, and its epoch payout is paid back whatever it was, so that all but the consumed rewards is restored if and only if the block is restorable on record; one that fails halfway leaves the minted counter too low by its reward; applied or refused, the nonces are those of a scan of the chain |
| Blockchains.Blockchain.UndoTables | qbit_network/core/rollback.py:238-410 | the forward loop of the reversal over all tables, for any number of transactions that had been processed |
| Blockchains.Blockchain.RevertEpoch | qbit_network/core/rollback.py:426-445 | takes back the moves of a recorded payout, if there is a record, and steps the epoch back |
| Blockchains.Blockchain.RollbackBlock | qbit_network/core/rollback.py:151-464 | the ledger goes back as the specification says from any state; without negative balances from the state the block led to; the trie returns to the snapshot below |
| Blockchains.Blockchain.PopBlock | qbit_network/core/rollback.py:52-56 | popping a block, from whatever state, takes it back as the specification says; an undoable one popped from the state it led to leaves the object in order for the shorter chain |
| Blockchains.Blockchain.SupplyInvariant | qbit_network/core/rollback.py:26-35 | computes the accounted coins |
| Blockchains.Blockchain.PopBlocks | qbit_network/core/rollback.py:52-56 | the loop composes the reversals of the blocks, the tip first, and collects their transactions |
| BlockFacts.DisplacedMembers | qbit_network/core/rollback.py:50-62 | what a rollback displaces are exactly the transactions of the blocks above the height |
| Blockchains.Blockchain.RollbackTo | qbit_network/core/rollback.py:24-98 | rolls back to a height; the two checks pass if and only if no balance is negative and the accounted coins are what they were; the nonces are those of a scan of the shorter chain and the trie is the snapshot of its last block, whatever else came back wrong; blocks that can be undone pass the checks and leave the object in order |
| LedgerChain.ChecksMiss | qbit_network/core/rollback.py:63-96 | the two checks pass for every block without matured, uncovered or clamped stakes whose reward is covered; its state comes back right if and only if there was nothing to pay and no token was clamped |
| ReachableFailures.WrongTokensPass | qbit_network/core/rollback.py:348-408 | an accepted and applied block whose rollback passes the checks and leaves a balance of a token that no longer exists |
| BlockFacts.UndoableConservesFrom | qbit_network/core/rollback.py:78-96 | chains that differ by undoable blocks account for the same coins |
| Blockchains.Blockchain.ValidateBlock | qbit_network/core/consensus.py:119-269 | accepts exactly the blocks that fit the chain the object holds |
| Blockchains.Blockchain.ApplyFork | qbit_network/core/blockchain.py:632-668 | applies fork blocks until one is refused, and succeeds exactly when all are accepted; what a refused fork applied can be undone |
| BlockFacts.ForkAcceptedIff | qbit_network/core/blockchain.py:632-668 | a fork is accepted if and only if each of its blocks has a sound header, the next index, a link to its parent, an accepted body, transactions that go through, and the root of the state it leads to |
| Blockchains.Blockchain.RestoreChain | qbit_network/core/blockchain.py:641-642 | re-applies the displaced blocks |
| Blockchains.Blockchain.AncestorRootMatches | qbit_network/core/blockchain.py:585-601 | the root check passes in every state in which the trie is the snapshot of the last block, which every rollback leaves behind, exact or not |
| Blockchains.Blockchain.TryReorg | qbit_network/core/blockchain.py:542-711 | succeeds exactly when the fork is connected, shallow, accepted block by block and makes the chain longer; then the object holds ancestor and fork and the state they lead to, otherwise its old chain and state; all but the last 32 blocks always stay |
| PoolLaws.PaidTxs | qbit_network/core/ledger.py:108-132 | no debit of a block fails when each sender covers the maximal cost of its transactions, and no one is left with less than the rest |
| PoolLaws.MaxDebitReached | qbit_network/core/ledger.py:108-132 | the maximal cost of a transaction is what the dearest block that may hold it takes |
| PoolLaws.DrainedSum | qbit_network/core/blockchain.py:715-735 | draining takes exactly the shares of the mined transactions out |
| PoolLaws.SolventThroughBlock | qbit_network/core/tx_pool.py:106-160 | a drawn block fails at most for its token checks when its own senders can cover it besides what they pay out at an epoch boundary; whoever can cover all it has in the pool besides that, covers what is left of it in the drained pool |
| PoolLaws.SolventAffords | qbit_network/core/tx_pool.py:106-160 | away from epoch boundaries that holds of every sender of a solvent pool |
| PoolLaws.PayoutComesFirst | qbit_network/core/blockchain.py:797-862 | at an epoch boundary a validator's own transaction from a solvent pool fails after its payout |
| PoolLaws.HeadsInOrder | qbit_network/core/consensus.py:249-267 | a block drawn from a pool in nonce order has its nonces in order if and only if it takes the head of every sender's queue |
| PoolLaws.QueuedAfterBlock | qbit_network/core/tx_pool.py:241-246 | a drawn block with its nonces in order leaves the drained pool in nonce order |
| TxPools.TxPool.CheckBalance | qbit_network/core/tx_pool.py:106-160 | refuses exactly a cost that the balance less the pending debits does not cover |
| TxPools.TxPool.CheckSubject | qbit_network/core/tx_pool.py:162-239 | evidence, revocation and token checks, pending mints and transfers included |
| PoolLaws.TokenAdmissibleIff | qbit_network/core/tx_pool.py:182-239 | the token checks in terms of the pool with the transaction in it: no symbol issued twice, mints of a capped token by its issuer within the cap, transfers covered by the balance |
| PoolLaws.PendingIsMoved | qbit_network/core/tx_pool.py:205-239 | the pending amounts of a token are what the transactions of the pool would take from its holder and add to its supply |
| TxPools.TxPool.Screen | qbit_network/core/tx_pool.py:21-253 | the checks in order; a transaction passes if and only if it is admissible, and refusals for money or nonce are never mistaken |
| TxPools.TxPool.AdmissibleIff | qbit_network/core/tx_pool.py:21-253 | what is admitted, in terms of the chain, its state and the pool with the transaction in it |
| TxPools.TxPool.AdmittedUnstakeCovered | qbit_network/core/tx_pool.py:82-91 | with totals in balance an admitted UNSTAKE is covered by its stake and total |
| TxPools.TxPool.SubmitTx | qbit_network/core/tx_pool.py:21-263 | exactly the admissible transactions are admitted; an admitted one keeps the pool indexed, solvent and in nonce order, a refused one changes nothing |
| TxPools.TxPool.RebuildPendingDebits | qbit_network/core/ledger.py:138-151 | the cache equals the recomputed sums |
| TxPools.TxPool.DrainPool | qbit_network/core/blockchain.py:715-735 | removes exactly the mined transactions and keeps ids, counts and cached debits right |
| TxPools.TxPool.MineFromPool | qbit_network/core/blockchain.py:510-534 | appending and draining a block drawn from the pool never fails for want of money when the pool is solvent, or at an epoch boundary when the senders of the block can cover it besides their payouts; away from boundaries the pool is solvent again, and it is in nonce order when the nonces of the block are |
| Producer.ByNonceSorts | qbit_network/core/blockchain.py:316-324 | the queue of a sender is sorted by nonce and holds what it is given |
| Producer.SelectTxs | qbit_network/core/blockchain.py:308-358 | the chosen transactions are distinct members of the pool that offer the base fee, within both limits, and the head of each sender's queue of those that do; a queue is broken off only by one of the limits |
| Producer.SelectLegacy | qbit_network/core/blockchain.py:359-362 | under the legacy model the head of the pool is taken, in nonce order |
| Producer.ChoiceTakesHeads | qbit_network/core/blockchain.py:309-324 | when every transaction of a pool in nonce order offers the base fee the choice takes the head of what each sender has there |
| Producer.ProducedBody | qbit_network/core/blockchain.py:308-358 | the block produced from a pool in nonce order passes the checks of its body if and only if its self-weight is within the limit and it takes the head of what each sender has in the pool |
| Producer.TakeQueue | qbit_network/core/blockchain.py:349-358 | a sender's queue is taken in order up to the first transaction that does not fit |
| Producer.LeftOut | qbit_network/core/blockchain.py:349-358 | a transaction that offers the base fee is left out only if the block is full or one of its sender that comes no later, left out too, would make it too heavy |

## Left out

- SQLite, JSON files and locks: I/O; SQLite mode also prunes the sender index.
- Cryptography, networking, RPC, web and metrics: foreign calls and plumbing.
- Receipts, events and header bytes, with the receipts root check, whose refusal is handled like a state root's.
- Reversal of EVIDENCE, REVOKE_KEY and REGISTER_VALIDATOR and the encryption key tables: the code reverses them only approximately, so these types are forward only apart from their fees.
- The frozen validator set of an epoch and its update on slashing: the choice is modelled for any active set.
- Blocks that reach this node from elsewhere and are not drawn from its pool, the purge of the pool on a signing-key revocation, and the return of displaced transactions to it.
- The estimate of the block size in `validate_block`, which cannot be reached with 200 transactions, and the caps on amounts in `submit_tx`, which the payload checks imply.
- The order of senders by priority in a produced block: a parameter, because every order keeps the limits and solvency.
- Pool admission of tokens guarantees no token check by itself: a mint of an uncapped token may still exceed 2^63-1 in its block.
- Blockchains.Blockchain.AppendBlock: for a block whose transaction fails halfway no condition is given under which the tables other than the minted counter are restored, because the code restores them only by accident.
- Blockchains.Blockchain.TryReorg: requires the displaced blocks to be undoable, as the code cannot restore matured unbondings and consumed epoch rewards; of the fork blocks only those accepted in a fork that is refused in the end have to be, and none may fail halfway.
- Blockchains.Blockchain.UndoTables: covers the types whose reversal is modelled, which EVIDENCE, REVOKE_KEY and REGISTER_VALIDATOR are not; so do RollbackBlock, PopBlock, RollbackTo and MineFromPool for a refused block.
- Blockchains.Blockchain.ValidateBlock: the proposer's turn, the registration of the validator and the status of keys depend on the state in the code; here they are part of `headerOk` and `signed`, constants of the block and of the network.
- Blockchains.Blockchain.AppendBlockInner: leaves out receipts and their root, and the update of the finalized height.
- Blockchains.Blockchain.CheckEpochTransition: leaves out the snapshot of the validator set of the new epoch.
- StakeTables.StakeTable.ProcessEvidence: leaves out the record of slashing events and the update of the epoch's validator set.
- TxPools.TxPool.CheckSubject: the rules for revoking a key are a boolean parameter.
- Finality.FinalityTracker.UpdateFinality: is stated along appends; the lowering of the finalized height by a rollback is left out.
- LedgerChain.NeverOverflows: assumes at most 2^44 transactions on the chain, beyond which uncovered UNSTAKEs could create more than 8 bytes hold.
