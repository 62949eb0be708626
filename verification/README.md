# Chain database and state transition: a Dafny model

This project models the core of a BSC-derived Ethereum node - the chain database that
decides which blocks are canonical, and the transaction-level state transition with its
gas and wei accounting - and proves what the code keeps, restores or conserves, over every
input and over whole runs. `dafny verify dfyconfig.toml` checks all of it.

**The chain database.** `Chain` holds the header store, keyed by hash, and the canonical
map from number to hash; `AncestorAt`, the plain walk over parents, is the reference for
everything else. `Database`, `HeaderChain` and `BlockChain` are classes whose methods
update the tables, the markers and the read cache in place, step by step as the program
does. The value-level modules beside them say what those updates achieve: `ForkSearch`
(where two branches meet), `Switch` and `TxIndex` (what a reorganisation does to the
canonical map and to the transaction index), `SetHead` and `Rewind` (going back),
`TotalDifficulty`, and `ForkChoice` (the preference behind the choice of head).
`Ancestors` compares the two ancestor shortcuts with the plain walk. `Import` runs any
mix of operations.

**The state transition.** `Accounts` is the account state; all wei form one multiset
tagged by holder, so a balance is a multiplicity and the supply a cardinality.
`Messages` holds transactions, messages and the block environment, `Transition` is the
meaning of one message, `StateTransition` the object that computes it in place,
`Processor` the loop over a block. `Gas` prices data and lists in 64-bit arithmetic
against a per-item price list, `Conservation` has the wei and gas laws and `Overdraft` the
exact limit of the first, `Nonces` the law that no nonce is consumed twice.

**Around them.** `TrieGc` is the queue of referenced state tries, `TxIndexer` the indexing
window, `IncrDownload` and `IncrProtocol` the download and merge protocol of incremental
snapshots as a state machine over all interleavings, `IncrConverse` the converse of its
safety, `DerivationPath` the BIP-32 path parser and printer.

What is taken as given:

- Hashes identify what they hash. `world` names the one header behind each hash and
  `bodyOf` its body; a header or block offered to the chain is the genuine one.
- The virtual machine is three functions (call, construction, deployment hook) that return
  no more gas than given, preserve the supply and lower no nonce (`Messages.Sound`); the
  hook, a call of a system contract with no value, moves no wei and is reverted when it
  rejects.
- The justified number is a function of the header. The coin that breaks ties, the answers
  of the consensus engine about system transactions, and the results of downloads and
  merges are parameters.
- Fork switches, fees and addresses are fields of the environment. The gas prices are the
  numbers of the `params` package, which is not part of this model.
- Total supply stays below 2^256. Balances, gas and nonces are otherwise given their real
  widths, and wrap where the program's do.

Where a promise fails in a corner, the code is kept as it is, the failing case is stated,
and the promise is proved under the exact condition: `Switch.HeadMoved` (an extension
clears neither the entries above it nor the cache), `Overdraft.AlwaysConservesIff`,
`Conservation.NeverOverdrawsIff`, `Nonces.SenderNonceRaised`, `Gas.IntrinsicGasIsPrice`,
`Gas.FloorIsTokens`, `Ancestors.GetAncestor`, `TrieGc.Collector.Release`,
`TxIndexer.ReportIsExact`, `TxIndexer.ReportAtTheTop`,
`IncrDownload.ContinuousIsGapFree`, `IncrConverse.SafeIffDistinctStarts`.

## Model

| member | source | states |
|---|---|---|
| Chain.AncestorTransitive | core/headerchain.go:434-466 | walking on from an ancestor continues the same line of parents |
| Chain.ClosedLine | core/headerchain.go:615-746 | on a parent-closed store every line reaches down to genesis without a gap |
| Chain.CanonicalIsAncestor | core/blockchain.go:2961-3144 | a stored header the canonical map names is an ancestor of the head |
| Chain.PathToChild | core/blockchain.go:1484-1523 | one entry on top of a parent's path gives the child's path |
| Chain.PathIsLinked | core/headerchain.go:434-466 | a map is a head's ancestor path exactly when it ends in the head and each entry names the parent of the next |
| ForkSearch.Descend | core/blockchain.go:2967-2978 | reducing the longer branch collects exactly the segment between its head and the given number |
| ForkSearch.FindFork | core/blockchain.go:2961-3006 | succeeds exactly when the two lines meet in the store, and then returns both segments and the highest common ancestor |
| ForkSearch.ClosedHeadsMeet | core/blockchain.go:2985-3006 | on a parent-closed store any two stored heads have a common ancestor |
| TotalDifficulty.TdIsLineSum | core/headerchain.go:227-279 | parent total plus own difficulty everywhere makes each stored total the sum of difficulties along its whole line |
| TotalDifficulty.AddHeader | core/blockchain.go:1934-1968 | storing a child of a stored header with parent total plus own difficulty keeps the store closed and all totals right; storing it again changes nothing |
| ForkChoice.DecisionIsPreference | core/forkchoice.go:76-151 | without a terminal difficulty the decision is: justified number, total difficulty, shorter, earlier, smaller hash for the same signer, and the coin for exactly the remaining ties |
| ForkChoice.BeatsIsStrictOrder | core/forkchoice.go:76-151 | the preference without the coin is irreflexive, asymmetric and transitive, and tied heads are incomparable |
| ForkChoice.BeatsIsTotalUpToTies | core/forkchoice.go:76-151 | two heads with different hashes are ordered or tied |
| ForkChoice.RankNeverDecreases | core/blockchain.go:2072-2108 | over any run of heads, tosses included, (justified number, total difficulty) never decreases, and within one rank the head never gets longer or later |
| ForkChoice.CoinlessRunClimbs | core/forkchoice.go:76-151 | a run without a toss only climbs in the preference |
| ForkChoice.NoCycleWithoutToss | core/forkchoice.go:76-151 | a head that returns to where it was without a toss never left |
| ForkChoice.CyclesStayTied | core/forkchoice.go:76-151 | with tosses, everything visited on a cycle has the same rank, number and time |
| ForkChoice.TossesCanCycle | core/forkchoice.go:76-126 | tosses can in fact take the head round a cycle |
| ForkChoice.SameAnswerOnceStored | core/forkchoice.go:76-151 | the answer is the same before and after the candidate and its total difficulty are stored |
| ForkChoice.Ask | core/forkchoice.go:76-151 | on sound tables there is an answer whenever the parent is stored, and it is the preference on the stored and the future total, or the terminal difficulty rule |
| TxIndex.HashDifference | core/types/transaction.go:679-694 | exactly the hashes of the first list that are not in the second |
| TxIndex.SegmentTx | core/blockchain.go:3030-3141 | a branch segment holds a transaction exactly where the branch does |
| TxIndex.EntryAfterSwitch | core/blockchain.go:3030-3141 | what a reorganisation and the head write leave in one transaction's index entry is its number on the new line, or nothing |
| TxIndex.SwitchKeepsIndexExact | core/blockchain.go:3030-3141 | with each transaction at most once on the new branch, an exact index is exact again after the switch |
| TxIndex.ExtendKeepsIndexExact | core/blockchain.go:1484-1523 | appending a block keeps an exact index exact |
| Switch.CanonWithPath | core/blockchain.go:3084-3104 | writing the new blocks upwards gives at each step exactly the path to the block just written, so every intermediate head write is sound |
| Switch.ReorgCanon | core/blockchain.go:2961-3144 | from any map that is the old head's line up to the old head, the head writes and the deletions leave exactly the line of the block the new head attaches to, whatever lay above |
| Switch.ReorgLookups | core/blockchain.go:3030-3141 | each lookup then reads: new block, dropped, or as before |
| Switch.AttachThenHead | core/blockchain.go:1484-1523 | the caller's head write completes it: the map is exactly the new head's line with nothing above |
| Switch.MovedByReorg | core/blockchain.go:2961-3144 | a reorganisation plus head write makes map, index and cache exactly those of the new head, for longer, shorter and ancestor targets; the cache is emptied |
| Switch.MovedByExtension | core/blockchain.go:1484-1523 | a plain extension gives the new head's line, and nothing above it if and only if nothing lay above before |
| Switch.ExtensionKeepsStaleEntries | core/blockchain.go:1484-1523 | an extension below stale entries does leave them |
| Switch.CacheUnderExtension | core/blockchain.go:1484-1523 | an extension, which does not purge the lookup cache, keeps an exact cache exact if and only if no cached place at the new number names another block |
| Switch.ExtensionKeepsStalePlaces | core/blockchain.go:1484-1523 | after a rewind that left entries above the head, a lookup and an extension do leave a cached place of a dropped block |
| Switch.ExactMoves | core/blockchain.go:1921-1930 | an exact state stays exact whenever the head moves |
| Database.Db.StoreSideBlock | core/blockchain.go:1901-1917 | storing a side block keeps the tables sound and its total reads back |
| Database.Db.StoreSideChain | core/blockchain.go:2743-2799 | the running sum stores, for every block of a linked run, parent total plus own difficulty, re-anchored at canonical blocks; known headers stay |
| Database.Db.NumbersAbove | core/headerchain.go:676-684 | the scan that stops at the first empty number finds every number above that holds a header on any fork |
| Database.Db.DeleteCanonAbove | core/blockchain.go:3117-3130 | the deletion loop that stops at the first gap removes every canonical entry above, because there are no gaps |
| HeaderChain.Headers.WriteHeaders | core/headerchain.go:227-279 | succeeds exactly when the first parent is known; then every header is stored, what was known is a prefix and untouched, what follows is new, and all totals are right |
| HeaderChain.BatchHeaders | core/headerchain.go:227-279 | the loop with its known-prefix skipping, reading the old tables only, prepares exactly that |
| HeaderChain.NewStaysNew | core/headerchain.go:227-279 | behind a new header every header is new, which is why the skipping is right |
| HeaderChain.Headers.DeletionsAbove | core/headerchain.go:157-221 | collects the deletion of every canonical entry above, stopping at the first gap |
| HeaderChain.Headers.OverwriteStale | core/headerchain.go:157-221 | collects the line of the first header down to where the old map already agrees, although all reads see the unflushed map |
| HeaderChain.PileOn | core/headerchain.go:157-221 | adds the batch's own headers and nothing else |
| HeaderChain.BatchBuildsPath | core/headerchain.go:157-221 | flushing the batch gives exactly the line of the last header, in the extend and in the switch case |
| HeaderChain.Headers.Reorg | core/headerchain.go:157-221 | makes the last header of a stored linked batch the head, with the canonical map exactly its line again |
| HeaderChain.Headers.MoveHead | core/headerchain.go:305-325 | the status is canonical if and only if fork choice picks the last header and it is not on the line already; a side status means it was not picked |
| HeaderChain.Headers.WriteHeadersAndSetHead | core/headerchain.go:289-325 | the map stays exactly the current header's line; the head moves to the last header if and only if fork choice picks it and it is not on the line already |
| BlockChain.Blocks.WriteHeadBlock | core/blockchain.go:1484-1523 | one canonical entry, the block's lookups, and all stored and in-memory markers |
| BlockChain.Blocks.PlanReorg | core/blockchain.go:2961-3083 | finds the fork at the highest common ancestor and the transactions of exactly the dropped blocks |
| BlockChain.Blocks.ApplyNewBlocks | core/blockchain.go:3084-3104 | full head writes for the new blocks below the head, lowest first |
| BlockChain.Blocks.PurgeStale | core/blockchain.go:3108-3138 | drops the index entries not brought back, the canonical entries above, and the cache |
| BlockChain.Blocks.Reorg | core/blockchain.go:2961-3144 | success leaves the map exactly the line of the attach point, every lookup as specified, an empty cache, and only sound head writes; it fails only on a missing body |
| BlockChain.Blocks.SwitchTo | core/blockchain.go:1921-1930 | the reorganising branch, with the head write after it |
| BlockChain.Blocks.ExtendTo | core/blockchain.go:1921-1930 | the extending branch |
| BlockChain.Blocks.WriteKnownBlock | core/blockchain.go:1921-1930 | makes a stored block the head: all markers name it and map, index and cache follow as in `Switch.HeadMoved`; the head move of SetCanonical is the same |
| BlockChain.Blocks.WriteBlockWithState | core/blockchain.go:1934-1968 | stores the block with parent total plus own difficulty exactly when the parent is stored, else changes nothing |
| BlockChain.Blocks.AskAndStore | core/blockchain.go:2072-2108 | the decision taken before storing is the preference on the total the block is then stored with |
| BlockChain.Blocks.WriteBlockAndSetHead | core/blockchain.go:2072-2141 | stores the block, moves the head exactly when it is preferred, keeps map, index and cache exact, and every head write sound |
| BlockChain.Blocks.StoreSideChain | core/blockchain.go:2743-2799 | only the block tables grow; an exact canonical map, index and cache stay exact |
| BlockChain.Blocks.GetCanonicalTransaction | core/blockchain_reader.go:390-412 | with an exact cache every hit, cached or not, names a block still canonical that holds the transaction; with an exact index the answer is the uncached one, found exactly when some canonical block holds it; a miss in the cache always reads the index |
| BlockChain.CachedReadIsExact | core/rawdb/accessors_indexes.go:180-200 | any canonical place that holds a transaction is the place the exact index gives |
| SetHead.CutKeepsTables | core/headerchain.go:615-746 | deleting every header above a number keeps the rest parent-closed and its totals right |
| SetHead.CutKeepsPath | core/headerchain.go:615-746 | the map cut with the headers is exactly the path to the new head |
| SetHead.FollowsStep | core/headerchain.go:657-664 | over a step the target stays the requested one or one forced by a block head below the freezer limit, and force is obeyed |
| SetHead.FollowsEnds | core/headerchain.go:640-664 | a lowered target is the header head's own number in the end, and a block head that forces ends as the header head |
| SetHead.BodiesCut | core/headerchain.go:728-741 | bodies deleted one by one and the frozen ones cut off at the end are together all bodies above the new head |
| SetHead.RewindStep | core/headerchain.go:640-710 | one step down keeps the rewind on the old head's line, everything above it missing the target and doomed on every fork |
| SetHead.RewindEnds | core/headerchain.go:711-746 | the final flush leaves closed headers, right totals, an exact map and three stored heads |
| Rewind.RewindHashHead | core/blockchain.go:993-1066 | terminates in genesis or a stateful ancestor: the newest one at or above the limit, with a root met on the way the newest at or below it; with a root not met, genesis, and no block from the limit on has it |
| Rewind.RewindPathHead | core/blockchain.go:1069-1141 | the same over available and recoverable states, which it makes available; a root whose own state is out of reach counts only if no block above it has its state, otherwise the newest ancestor whose state is there is the answer |
| BlockChain.Blocks.RestartBlock | core/blockchain.go:1238-1273 | the block head goes to where the search of the trie scheme from the parent has to end: stateful, or genesis |
| BlockChain.Blocks.UpdateHeads | core/blockchain.go:1234-1304 | the block head ends stateful or at genesis on the parent's line, so the fatal exit for a stateless head is never taken; the snap head follows |
| BlockChain.Blocks.RewindOnce | core/headerchain.go:640-710 | one step of the rewind with both callbacks: the header head goes down by one, the block head never rises and goes where the search from the parent has to end, the target is lowered exactly where the new block head forces it; all three markers are flushed together and agree with memory |
| BlockChain.Blocks.RewindLoop | core/headerchain.go:640-710 | the loop takes only such steps and terminates at the target in force; there is one flush for each step, which leaves the headers as they were and the three markers of the stop reached, all stored |
| BlockChain.Blocks.Prune | core/headerchain.go:711-741 | the final flush and cut leave sound tables and an exact map |
| BlockChain.Blocks.SetHead | core/headerchain.go:615-746 | follows a course of such steps to the first ancestor meeting the target; the target is the requested one or a number below the freezer limit at which the header head then stands, and a block head that forces is the header head; nothing above remains on any fork, headers or bodies; the tables stay sound, the map is exact, and there is one flush for each step with the markers of its stop and a last one after the deletions, at all of which the markers name stored headers; if the target was met already nothing is deleted |
| Import.ImportOne | core/blockchain.go:2072-2141 | one import moves the head only as the preference allows |
| Import.LookUp | core/blockchain_reader.go:390-412 | in an exact state whose branches repeat no transaction a lookup finds it exactly when the head's line holds it |
| Import.ImportAll | core/blockchain.go:2072-2141 | over any sequence of imports and lookups the exact state stays exact, the heads after each form a run of the preference, and the head's (justified, total difficulty) never decreases |
| Import.RewindTo | core/blockchain.go:1220-1361 | a rewind, with any number of frozen blocks, keeps every stored header paired with its body |
| Import.RunAll | core/blockchain.go:2072-2141 | over any mix of imports, side chains, lookups and rewinds with any number of frozen blocks every reached state is sound, and at every head write ever made the entries at or below the new head were already its ancestors |
| Import.StoreAll | core/headerchain.go:227-279 | over any mix of header batches, blocks and side chains every stored total is the sum over its line |
| Ancestors.WalkIsAncestor | core/evm.go:107-143 | walking by hash is walking by header |
| Ancestors.CanonicalWalk | core/headerchain.go:434-466 | from a canonical hash the map answers what the walk would |
| Ancestors.ClosedHasNoZeroParents | core/headerchain.go:434-466 | on the stores the chain keeps only genesis names the zero parent, as the walk relies on |
| Ancestors.GetAncestor | core/headerchain.go:434-466 | (zero, 0) or the true ancestor; the true one exactly when it exists and the budget covers the headers down to the canonical chain, one generation being free; the zero hash above the chain is the one query answered wrongly |
| Ancestors.HashFn.Query | core/evm.go:107-143 | whatever was asked before, the cached closure answers what an uncached walk would |
| Ancestors.HashFn.QueryAll | core/evm.go:107-143 | so for every sequence of queries |
| Gas.IntrinsicGasIsPrice | core/state_transition.go:77-123 | refused exactly when base and data part exceed 64 bits; otherwise the price list's sum modulo 2^64, and the sum itself exactly when the unchecked lists do not carry it past 64 bits |
| Gas.DataGasIsPrice | core/state_transition.go:77-114 | the two counts with their division guards charge each byte and each started word its own price |
| Gas.AuthListsCanWrap | core/state_transition.go:119-122 | 2^61 authorizations pass with the base price |
| Gas.WordSize | core/state_transition.go:141-147 | the overflow guard gives the same ceiling |
| Gas.FloorIsTokens | core/state_transition.go:126-138 | 21000 plus ten per token, exactly when that fits 64 bits, and refused otherwise as long as the token count fits |
| Gas.FloorCanWrap | core/state_transition.go:126-138 | beyond that the guard is blind |
| Gas.GasPool.AddGas | core/gaspool.go:29-35 | adds, or reports the panic exactly when the pool would pass 64 bits |
| Gas.GasPool.SubGas | core/gaspool.go:39-45 | subtracts exactly when enough is left |
| Accounts.TransferConserves | core/evm.go:152-155 | a covered transfer moves the amount, makes no wei and touches no third account, for equal accounts too |
| Accounts.Debit | core/state_transition.go:272-314 | a debit takes exactly its amount exactly when the account holds it |
| Transition.InvokeKeeps | core/state_transition.go:517-542 | the call or creation returns no more gas than given and preserves the supply, authorizations and hook included |
| Conservation.PreCheckAdmits | core/state_transition.go:316-418 | preCheck gets to buying gas exactly for the messages that meet every nonce, sender, fee, blob and authorization rule |
| Conservation.ExecuteAccepts | core/state_transition.go:431-506 | a message executes exactly when those rules admit it, its sender holds the required amount, the block has the gas, and it can run on what was bought |
| Conservation.BuyingIsExact | core/state_transition.go:272-314 | buying gas takes exactly the cost exactly when the sender holds the cost |
| Conservation.NeverOverdrawsIff | core/state_transition.go:272-314 | for any message buying is safe in every state exactly when the cost does not exceed the amount checked for |
| Conservation.TransactionsAreCovered | core/state_transition.go:182-209 | the effective price is at most the cap and, above the base fee, at most the tip and exactly the tip where the cap allows; with base-fee checks on a message that passes preCheck never costs more than is checked for |
| Conservation.CoveredNeverOverdraws | core/state_transition.go:272-314 | such a message leaves at least the value in the sender's account and takes nothing from anyone else |
| Conservation.LateFundsExitsUnreachable | core/state_transition.go:494-501 | so no transaction reaches the later insufficient-funds exits, nor a price too wide to refund |
| Conservation.GasIsExact | core/state_transition.go:544-601 | with g the gas used before refunds, used gas is max(g - min(g / quotient, counter), floor), at most the peak max(g, floor), at most the limit, and the pool loses exactly the used gas |
| Conservation.PayoutsAreExact | core/state_transition.go:563-593 | returning gas and paying fees add exactly their products; no 256-bit multiplication or addition wraps |
| Conservation.PayoutsGoWhereDue | core/state_transition.go:563-593 | the sender gets the unused gas back, the fee recipient the tip and in BSC mode the blob fee, every other account nothing |
| Conservation.WeiIsConserved | core/state_transition.go:431-601 | if the sender holds the cost, the supply falls by exactly used gas times min(price, base fee) after London, zero before, plus the blob fee outside BSC mode only |
| Conservation.TransactionsConserveWei | core/state_transition.go:431-601 | this holds of every transaction that executes with base-fee checks on |
| Overdraft.AlwaysConservesIff | core/state_transition.go:272-314 | any message conserves wei in every state and under every machine if and only if it can never execute, or what buying takes, modulo 2^256, is no more than is checked for and equals what is received and burnt in the end for every gas use from the least possible to the limit |
| Overdraft.SafeIfCostFits | core/state_transition.go:272-314 | for a cost that fits 256 bits this is: it costs no more than is checked for |
| Overdraft.PayoutIsReceived | core/state_transition.go:563-593 | what is paid out to accounts with room for it, all products and sums truncated, is what the condition counts |
| Overdraft.UsesExactly | core/state_transition.go:544-562 | every gas use from the least possible to the limit does occur |
| Overdraft.FreeBlobIsUnsafe | core/state_transition.go:394-408 | on a Cancun block with base-fee checks off, a free message with one blob and a zero blob fee cap does not always conserve wei, in BSC mode or outside it |
| Overdraft.FreeBlobMakesWei | core/state_transition.go:394-408 | outside BSC mode it executes on an empty state and leaves nearly 2^256 wei, whatever the machine does |
| Nonces.AuthorizationEffect | core/state_transition.go:604-662 | an authorization takes effect exactly under the stated conditions; then it raises its authority's nonce by exactly one, sets or clears its code and refunds an existing account; a skipped one changes nothing; other accounts are untouched |
| Nonces.AuthsBetween | core/state_transition.go:523-529 | a list of authorizations consumes distinct pairs, each within what its account's nonce moved over |
| Nonces.SenderNonceRaised | core/state_transition.go:316-332 | a finished message raises its sender's nonce past its own exactly when no early deployment hook rejected it; a rejected creation leaves all nonces and passes the nonce check again |
| Nonces.NoncesAreUsedOnce | core/state_transition.go:316-332 | over any run in which no early hook rejects, every (account, nonce) pair is consumed at most once, by transactions and authorizations together |
| Nonces.RejectedCreationsRepeat | core/vm/evm.go:616-631 | before its fix the hook lets one creation through twice |
| Nonces.RejectingChainsExist | core/vm/evm.go:616-631 | there are environments in which that happens |
| StateTransition.Transition.BuyGas | core/state_transition.go:272-314 | refuses, changing nothing, or takes cost and gas |
| StateTransition.Transition.PreCheck | core/state_transition.go:316-419 | the first failing check in order, or the gas bought |
| StateTransition.Transition.CheckCaps | core/state_transition.go:346-417 | fee, blob and authorization-list checks with their exemptions, in order |
| StateTransition.Transition.CheckVersions | core/state_transition.go:388-392 | true exactly when every blob hash has version 1 |
| StateTransition.Transition.Ready | core/state_transition.go:453-506 | the consensus checks after gas was bought; the intrinsic gas is deducted |
| StateTransition.Transition.ValidateAuthorization | core/state_transition.go:604-635 | the authority exactly of an authorization that passes every check |
| StateTransition.Transition.ApplyAuthorization | core/state_transition.go:638-662 | the state after one authorization, refund for existing accounts included |
| StateTransition.Transition.ApplyAuthorizations | core/state_transition.go:523-529 | the loop applies them in order, skipping invalid ones |
| StateTransition.Transition.Run | core/state_transition.go:517-542 | ends in the machine's outcome on the prepared state |
| StateTransition.Transition.CalcRefund | core/state_transition.go:665-681 | the counter capped by half the used gas, a fifth after London |
| StateTransition.Transition.RefundGas | core/state_transition.go:544-562 | gas left after refund and floor; the peak leaves refunds out |
| StateTransition.Transition.ReturnGas | core/state_transition.go:685-697 | sender credited and pool refilled; false exactly where the program panics |
| StateTransition.Transition.PayFees | core/state_transition.go:565-593 | tip, clamped at zero, and in BSC mode the blob fee, to the fee recipient |
| StateTransition.Transition.Settle | core/state_transition.go:544-601 | refund, floor, return and fees together settle the outcome |
| StateTransition.Transition.Execute | core/state_transition.go:431-601 | refines the message's specification, errors included |
| Processor.MessagesAreFormed | core/state_transition.go:182-209 | a message derived from a transaction has the fields every fork reads |
| Processor.ApplyTransaction | core/state_processor.go:224-300 | applies one transaction and makes its receipt's gas fields |
| Processor.Process | core/state_processor.go:143-175 | refines the block loop, errors included |
| Processor.LoopSelects | core/state_processor.go:143-159 | exactly the system transactions are set aside, in order, and only blocks in which every transaction is classified and, under Cancun, the system ones come last are accepted |
| Processor.LoopApplies | core/state_processor.go:161-175 | all other transactions are applied, in order |
| Processor.BlockGasIsExact | core/state_processor.go:143-175 | pool plus gas used is the block gas limit, every receipt's cumulative gas is the sum of the receipts so far, one receipt for each transaction, no wrap |
| Processor.BlockConservesWei | core/state_processor.go:143-175 | over a block the supply falls by exactly the sum of what its transactions burn |
| Processor.BlockBooks | core/state_processor.go:143-175 | both laws for the whole loop, system transactions included |
| TrieGc.Collector.Push | core/blockchain.go:1995-1997 | takes a reference and queues it |
| TrieGc.Collector.Release | core/blockchain.go:2042-2054 | releases nothing above the threshold; something at or below it is left if and only if the queue held an entry past 2^63 and above the threshold, and one that is neither |
| TrieGc.Collector.Write | core/blockchain.go:1995-2054 | outstanding references stay exactly the queue; a root is released only by a block at least the window above it; something at or below current minus window survives if and only if such a pair shields it, which needs a block number past 2^63 |
| TrieGc.Collector.Stop | core/blockchain.go:1609-1611 | the drain releases every reference ever taken, once |
| TrieGc.Collector.Run | core/blockchain.go:1995-2054 | so after any writes in any order and a stop: released equals taken, nothing outstanding |
| TrieGc.PriorityOrder | core/blockchain.go:1997 | as signed priorities, numbers past 2^63 come out first, and within either half the lowest first |
| TrieGc.LeftOverIffShielded | core/blockchain.go:2042-2048 | where the loop stops, something old is left exactly when it is shielded |
| TrieGc.ShieldedQueueExists | core/blockchain.go:2042-2048 | block 2^63 + 1 keeps block 5 from being released |
| TxIndexer.Indexer.Repair | core/txindexer.go:159-216 | whatever was stored, the assumptions of run hold afterwards; only what lies under the cutoff or above the head is lost |
| TxIndexer.Indexer.Run | core/txindexer.go:105-152 | afterwards exactly the window up to the head is indexed and the tail is its start, except at the largest block number |
| TxIndexer.Indexer.Launch | core/txindexer.go:105-216 | repair then run: exactly the window, and reported done |
| TxIndexer.Indexer.FollowAll | core/txindexer.go:263-288 | over any number of head events the window is exact after each |
| TxIndexer.Indexer.IndexTransactions | core/rawdb/chain_iterator.go:189-275 | the assumed database operation, uninterrupted |
| TxIndexer.Indexer.UnindexTransactions | core/rawdb/chain_iterator.go:288-370 | the assumed database operation, uninterrupted |
| TxIndexer.ReportIsExact | core/txindexer.go:304-337 | done exactly when the tail covers the window, or lies more than one above the head where the count wraps; the remainder counts the missing blocks |
| TxIndexer.ReportAtTheTop | core/txindexer.go:304-337 | at the largest number an unlimited or uncut index is always reported done; any other exactly when the tail covers the window and is not zero, which wraps the count |
| IncrDownload.CheckFileContinuity | core/incr_downloader.go:543-564 | true exactly when each file starts one after the one before it, in 64 bits |
| IncrDownload.ContinuousIsGapFree | core/incr_downloader.go:543-564 | an accepted list of ranges is gap-free exactly when no file but the last ends at the largest number |
| IncrDownload.Mark | core/incr_downloader.go:600-623 | appends a name once |
| IncrDownload.Unmark | core/incr_downloader.go:626-642 | removes every occurrence and keeps the rest in order |
| IncrProtocol.InitInv | core/incr_downloader.go:246-386 | a fresh start satisfies the protocol's invariant |
| IncrProtocol.InsertIsNew | core/incr_downloader.go:749-774 | neither early return of the queueing is ever taken |
| IncrProtocol.QueueStep | core/incr_downloader.go:749-774 | queueing keeps the invariant and always inserts the file |
| IncrProtocol.LookStep | core/incr_downloader.go:1115-1117 | the merge worker finds exactly the next file of the list, fully queued |
| IncrProtocol.MarkMergedStep | core/incr_downloader.go:720-746 | moving a file from to-merge to merged keeps the invariant |
| IncrProtocol.AdvanceStep | core/incr_downloader.go:1172-1173 | after a merge the worker expects the start of the next file |
| IncrProtocol.ExitTestIsExact | core/incr_downloader.go:1178-1187 | the comparison of the two counters succeeds exactly when everything has been merged |
| IncrProtocol.StepInv | core/incr_downloader.go:567-774 | every action of every worker keeps the invariant |
| IncrProtocol.RunsAreSafe | core/incr_downloader.go:1105-1195 | in every interleaving, at every point: merged is a prefix of the list, each file once; merged is within downloaded, to-merge is disjoint from merged, to-download from downloaded; all-processed means all merged |
| IncrProtocol.RunsMergeWithoutGaps | core/incr_downloader.go:1105-1195 | and what is merged is gap-free when no file but the last ends at the largest number |
| IncrConverse.SafeIffDistinctStarts | core/incr_downloader.go:543-564 | for a continuity-checked list and any number of download workers every interleaving is safe at every point if and only if no two files start at the same block |
| IncrConverse.SameStartBreaksOrder | core/incr_downloader.go:749-774 | one worker is enough: of two different files with one start the later can be merged in the earlier one's place |
| IncrConverse.SameFileBreaksLists | core/incr_downloader.go:600-671 | with one worker too, a file listed twice can be both downloaded and marked for download |
| DerivationPath.SplitIsInverseOfJoin | accounts/hd.go:72 | splitting at slashes loses nothing and leaves no slash |
| DerivationPath.TrimCutsSpace | accounts/hd.go:92 | trimming cuts off white space at both ends, all of it and nothing else |
| DerivationPath.ScanPrinted | accounts/hd.go:101-104 | scanning a printed decimal gives the number |
| DerivationPath.ScanPrefixed | accounts/hd.go:101-104 | hexadecimal, octal and binary notations give the number too |
| DerivationPath.ParseDerivationPath | accounts/hd.go:68-118 | computes the meaning of a path string, errors included |
| DerivationPath.ToString | accounts/hd.go:122-136 | computes the canonical form |
| DerivationPath.RoundTrip | accounts/hd.go:68-136 | parsing the printed form of any non-empty path gives it back; the empty path prints as a refused string |
| DerivationPath.ParsePrintParse | accounts/hd.go:68-136 | every accepted string means the same as its canonical form |
| DerivationPath.HardenedComponents | accounts/hd.go:95-112 | quoted decimals below 2^31 and plain ones from 2^31 on name the hardened half of the index space, as in the "Extended keys" section of BIP-32 |
| DerivationPath.RelativePaths | accounts/hd.go:83-85 | a relative path means the absolute one under the default root |

## Left out

- The EVM interpreter, tries, snapshots, KZG and signature checks: the machine is given by its contract, an authorization or transaction by the account its signature recovers to.
- The Parlia engine: justified numbers and the classification of system transactions are parameters; system transactions are only set aside.
- The freezer and snap sync: a table stands for what the key-value store and the freezer hold together; the number of frozen blocks decides whether a rewind lowers its target, and which bodies go with the final cut.
- The repair mode of a rewind, in which the markers are derived again from the database.
- BlockChain.Blocks.SetHead: a timestamp target must not lie before genesis; the program stops the process there.
- BlockChain.Blocks.SetHead: frozen blocks above a header head that already meets the target, which the program cuts off without rewinding, are not modelled.
- BlockChain.Blocks.GetCanonicalTransaction: promises nothing of a cached place once the cache is not exact, which `Switch.ExtensionKeepsStalePlaces` shows can happen.
- HeaderChain.Headers.WriteHeaders: the interrupted exit, which fills caches without flushing the batch, is not modelled.
- BlockChain.Blocks.Reorg: of the exits for a corrupt database only the missing-body ones exist here, and nothing is said of the state they leave.
- Import.RunAll: header-only batches are not part of this mix, since a reorganisation needs every stored header's body; `Import.StoreAll` covers them for the total difficulties.
- Import.RunAll: says nothing of the transaction index after a rewind, which the program leaves with entries of deleted blocks.
- Self-destructed contracts: deleting one resets its nonce to zero, which the machine's contract excludes.
- Stateless access costs (EIP-4762), access-list warming, tracing and metrics: they do not change the modelled state.
- Flushing of tries on time or memory limits in the garbage collector: it decides what reaches the disk, not which references are held.
- Interrupted indexing, the scheduling of the indexer's goroutine, and the pruned tail of the ancient store.
- Resuming the incremental downloader from saved status, HTTP, retries, checksums and extraction: a fetch succeeds or fails.
- Liveness of the download protocol: a failed download leaves the merge worker waiting.
- Receipts beyond gas and status; block rewards, withdrawals and requests.
- The path iterators and JSON forms of derivation paths: easy members.
