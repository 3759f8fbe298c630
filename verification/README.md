# Verification of the hybrid blockchain node's ledger

A Dafny model of the node's ledger and of the structures it relies on, with proofs of what
they keep over whole runs. Every file is one module.

| files | what they model |
|---|---|
| `Types`, `Text` | transactions, outputs, 64-bit arithmetic, map keys and their order |
| `Ledger`, `Balances`, `LiveSet`, `Conservation` | the effect of transactions on the flag-based pool, the delete-based set, totals |
| `Merkle`, `StateRoot` | Merkle roots and proofs, roots of a pool |
| `DeltaSync`, `UtxoPool` | the pool object, its change record, deltas and snapshots |
| `Gas`, `Funding` | creating and funding a payment |
| `TrieSpec`, `Trie`, `BlockBody` | the Patricia trie with cached hashes, and its trip through JSON |
| `Chain` | chain validation, ancestor search, fork choice, rollback |
| `Mempool`, `Admission`, `BlockBuilder` | admission by fee, the admission test written out, packing of a block |
| `BlockLifecycle` | a block from the builder through its trie to the ledger |
| `Selection`, `Slashing`, `StakePool`, `Heartbeat` | weighted choice, penalties, gossip merge, liveness |
| `Supply`, `Signature` | halving schedule, bytes of a signature |
| `Witnesses` | concrete inputs on which laws fail, with hashes for which nothing collides |

How the source is read:

- `float64` amounts are `real`. Unsigned 64-bit sums and products that can wrap do so in the model.
- Time, randomness, signature checking and the database's success are parameters.
- sha256 is a function parameter and is never assumed injective. Where a law needs that nothing collides, it asks it of
  the finitely many values at hand: the pairs combined in the trees compared (`Merkle.NoCollision`), the texts one trie
  can hash (`TrieSpec.NoCollision`), the blocks of the chains compared (`Chain.SameHashSameHeader`).
- Go's map order is arbitrary: loops over maps pick an arbitrary key. That includes the hashing of a trie node's children
  (`blockchain/patricia_trie.go:109`): `TrieSpec.CanHash` relates a set of digests to every hash that some order, chosen
  anew at every node, can give. The tries carry a constant `sorted`: false is the loop as written, true is the same
  loop over sorted keys, so that what sorting would buy is stated beside what the code does.
- Locks are dropped; every operation is one step.

## What was found

- The order in which a block's transactions are processed matters exactly when one of them spends an output of
  another (`Ledger.OrderIrrelevantIff`); processing twice in the same order never matters.
- A delta brings a peer up to date exactly when no removed key is live again and, if the sender's clock still shows the
  second of the last sync, nothing else has changed (`DeltaSync.DeltaCatchesUpIff`). Otherwise the peer can accept the
  delta and keep an output the sender has spent (`DeltaSync.SameSecondIsAcceptedAndWrong`).
- The pool root does not cover spent flags (`StateRoot.RootIgnoresSpentFlags`). Over the same keys it tells two pools
  apart exactly by their leaves (`StateRoot.RootsAgreeIff`), and a snapshot's root is that of the entries it keeps
  exactly when nothing was spent (`UtxoPool.LoadedRootIff`).
- A payment burns exactly its fee if and only if its outputs overwrite nothing of value
  (`Conservation.PaymentBurnsFeeIff`). The id (`blockchain/transaction.go:137-149`) covers neither inputs nor outputs and
  only the whole second, so two equal payments in one second share it, and the receiver is paid once
  (`Conservation.SameIdPaysOnce`).
- A payment assembled by the RPC handler returns its change twice, and so, with an unused id, conserves value exactly
  when there is no change (`Conservation.RpcPaymentConservesIff`).
- Generated Merkle proofs lead to the Merkle root of the listed transactions exactly at positions 0 and 1
  (`Merkle.WrittenProofVerifiesIff`). That root is the reference here: what GenerateMerkleProof announces beside the
  proof is the trie's root (`blockchain/block.go:853`), and the code never computes a root over these leaves.
- As the loop is written, a trie has one root exactly when it holds at most one transaction
  (`TrieSpec.RootIsUniqueIff`); so reading a block back can change its root as soon as it holds two
  (`BlockBody.RoundTripKeepsRootIff`). Sorting the children first would make the root a function of the content
  (`TrieSpec.SortedRootIsUnique`).
- Fork resolution wants longer and heavier. All orders of arrival end in the same chain exactly when one contender beats
  all others (`Chain.NodesConvergeIff`); a longer and a heavier branch leave nodes apart (`Chain.NodesCanEndApart`).
- Processing a block in the order its trie lists it leads to the live set its builder announced exactly when no
  transaction of it spends another's output (`BlockLifecycle.ListingsReachAnnouncedIff`), although the builder packs
  such transactions.
- The admission test counts an input as often as it is named, while spending it happens once. Counted and spent value
  agree exactly when no input is named twice (`Admission.CountedIsSpentIff`); a transaction that pays out what was
  counted mints otherwise (`Admission.RepeatedInputMintsIff`). One coin of 10 named twice is packed into a block
  and mints 5 (`Witnesses.TwiceIsPackedAndMints`).
- The admission test compares the inputs with the amount and never looks at the outputs: an accepted transaction mints
  exactly when its outputs are worth more than what it spends (`Admission.AcceptedMintsIff`,
  `Witnesses.GenerousIsAcceptedAndMints`).
- A sync takes an id in twice if the peer's list names it twice (`Mempool.ListedTwiceIsInTwice`); as long as nothing is
  evicted, ids stay distinct exactly when those taken over are (`Mempool.SyncKeepsDistinctIff`).
- From the genesis block the node makes, fork resolution never succeeds (`Chain.BuiltInGenesisBlocksForkChoice`).
- The two reward functions disagree exactly at the first block of a halving period
  (`Supply.RewardFunctionsAgreeIff`).
- A signature is read back exactly when s has as many bytes as r or one more (`Signature.SplitRecoversIff`).
- Every slash of an odd amount creates half a unit (`Slashing.WorthAfterViolations`); k slashes create nothing exactly
  when 2^k divides the stake (`Slashing.SlashingConservesIff`). A peer that still holds the old entry undoes every
  slash that took something (`StakePool.StalePeerUndoesSlashIff`).
- Heartbeats do not take timeouts back (`Heartbeat.TimeoutsAreForLife`).

## Model

| member | source | states |
|---|---|---|
| Text.OutpointKeyInjective | blockchain/utxo.go:171 | the key "txid-index" of an output determines the id and the index |
| Text.NegativeIndexCollides | blockchain/utxo.go:149 | an input with index -1 names the key of another transaction's output |
| Text.DecimalReadsBack | blockchain/utxo.go:171 | the printed index reads back, in base ten, as the index |
| Text.BeforeDecides | blockchain/utxo.go:79 | keys are sorted by the first character in which they differ |
| Text.BeginningIsBefore | blockchain/utxo.go:79 | a key that another one begins with comes first |
| Ledger.ApplyTxAt | blockchain/utxo.go:145-193 | what one transaction does to one key: keep, flag as spent, or write an entry |
| Ledger.ApplyBlockAt | blockchain/utxo.go:1051-1127 | a block acts on each key by the composition of its transactions' effects |
| Ledger.WrittenEntry | blockchain/utxo.go:170-193 | on every pool, the entry under each output after its transaction, field by field: id, index, amount, receiver, unspent, height, time, script |
| Ledger.WrittenByBlock | blockchain/utxo.go:1094-1119 | the same after a block for an output that nothing later overwrites, spent if and only if something later spends it |
| Ledger.ReplayIsIdempotent | blockchain/utxo.go:1051-1127 | for every pool and every block, processing the block twice leaves what processing it once left |
| Ledger.EveryOrderAgrees | blockchain/patricia_trie.go:149-167 | with distinct ids and no spending inside the block every processing order leaves the same pool |
| Ledger.OrderIrrelevantIff | blockchain/utxo.go:1051-1127 | with distinct ids, all orders agree on all pools if and only if no transaction spends another's output |
| Ledger.SecondPassInAnyOrder | blockchain/blockchain.go:1184-1186 | with distinct ids and no spending inside the block, the second pass over a mined block, in whatever order the trie lists it, changes nothing |
| Balances.TotalWithout | blockchain/utxo.go:892-903 | a total does not depend on the order in which the map is visited |
| LiveSet.UpdateUTXOSet | blockchain/utxo.go:336-360 | the delete-based update: inputs removed, outputs written |
| LiveSet.UpdatedEntry | blockchain/utxo.go:347-358 | the entry under each output after an update, field by field, with height and time zero |
| LiveSet.ApplyTxRefines | blockchain/utxo.go:127-210 | the unspent part of the flag-based pool after a transaction is the delete-based update of its unspent part before |
| LiveSet.ApplyBlockRefines | blockchain/utxo.go:1051-1127 | the same for every sequence of transactions |
| LiveSet.TotalOfView | blockchain/utxo.go:892-903 | balances and supply depend on the unspent part only |
| LiveSet.PrunedPoolKeepsBalances | blockchain/utxo.go:363-450 | a pool restored from a pruned snapshot and fed any later blocks has the balances of one never pruned |
| LiveSet.PrunedAt | blockchain/utxo.go:373-378 | pruning drops exactly the spent entries and leaves the others as they are |
| Merkle.CalculateMerkleRoot | blockchain/block.go:459-471 | the padding loop computes the recursive Merkle root of a list that is not empty |
| Merkle.ProofFoldsToRoot | blockchain/block.go:862-915 | a leaf folded with its siblings gives the root, with one sibling per level, at every position |
| Merkle.GenerateMerkleProofForIndex | blockchain/block.go:862-915 | the loop computes the proof that halves the index twice per level |
| Merkle.WrittenProofLength | blockchain/block.go:879-912 | the generated proof still has one entry per level |
| Merkle.WrittenProofVerifiesIff | blockchain/block.go:901-911 | over distinct leaves, unless two pairs combined in the tree or on the way up collide, the generated proof leads to the root of the leaves if and only if the position is 0 or 1 |
| Merkle.ThirdOfThree | blockchain/block.go:879-912 | for every combining function, the generated proof of the third of three leaves, what it leads to and what the root is |
| Merkle.SameLengthRootIff | blockchain/block.go:454-474 | lists of equal length have equal roots if and only if they are equal, unless pairs in their trees collide |
| Merkle.SameRootIff | blockchain/block.go:454-474 | the same for lists of any lengths without repetitions, if no leaf is also a combination |
| StateRoot.CollectSortedKeys | blockchain/utxo.go:75-79 | whatever order the map is listed in, the sorted key list is the same |
| StateRoot.SortedListingIsUnique | blockchain/utxo.go:79 | a set of keys has one sorted listing |
| StateRoot.CalculateMerkleRoot | blockchain/utxo.go:68-117 | the pool's root is a function of its content; empty for an empty pool |
| StateRoot.CalculateBlockRoot | blockchain/block.go:454-474 | "0x" and the Merkle root of the hashes, or the zero root if there are none |
| StateRoot.CalculateStateRoot | blockchain/block.go:407-436 | a block's state root is "0x" and the pool root of the same map, or the zero root for an empty map |
| StateRoot.RootIgnoresSpentFlags | blockchain/utxo.go:85-90 | pools that agree on ids, indices, owners and amounts have the same root, whatever is spent |
| StateRoot.OneEntryRoot | blockchain/utxo.go:82-93 | the root of a single entry is the hash of id, index, owner and amount joined by hyphens |
| StateRoot.TwoEntryRoot | blockchain/utxo.go:96-116 | the root of two entries is the hash of the two hashes, the smaller key's first |
| StateRoot.RootsCoverIff | blockchain/utxo.go:85-90 | over well-keyed pools with the same keys, roots are equal if and only if owner and amount agree under every key, unless something collides or two amounts print alike |
| StateRoot.RootsAgreeIff | blockchain/utxo.go:68-117 | over the same keys, roots are equal if and only if the leaf under every key is, unless two pairs in the trees collide |
| StateRoot.PartRootIff | blockchain/utxo.go:68-117 | a pool and a part of it have equal roots if and only if no key is missing and every leaf is equal, if nothing collides |
| Conservation.TransactionAccounting | blockchain/utxo.go:127-210 | on every pool, every transaction changes the supply and each balance by its outputs less what it newly spends and what it overwrites |
| Conservation.PaymentMoves | blockchain/transaction.go:542-592 | on every pool a funded payment moves its amount and its fee, less what it overwrites |
| Conservation.PaymentBurnsFeeIff | blockchain/utxo.go:171-187 | a funded payment burns exactly its fee if and only if its outputs overwrite nothing of value |
| Conservation.PaymentConserves | blockchain/transaction.go:542-592 | such a payment burns its fee, moves its amount and touches nobody else |
| Conservation.SameIdPaysOnce | blockchain/transaction.go:137-149 | of two payments with the same id only the second reaches the receiver |
| Conservation.RpcPaymentConservesIff | RPC/api/transaction.go:225-288 | the handler's payment mints its change; it burns exactly its fee if and only if the change equals what is overwritten, for an unused id if and only if there is no change |
| Conservation.RunConserves | blockchain/utxo.go:127-210 | over any run the supply is the old supply plus rewards less fees and what was overwritten, which is nothing if every id was unused |
| DeltaSync.TouchedIff | blockchain/utxo.go:156-193 | the keys recorded for a transaction are exactly its outputs and its present inputs, and no other key changes |
| DeltaSync.EveryEarlierStateExplained | blockchain/utxo.go:156-193 | the change record explains the present pool from every earlier state, except for removed keys |
| DeltaSync.DeltaCatchesUpIff | blockchain/utxo.go:804-827 | for every history, earlier state and sync time the delta leads to the present state if and only if no removed key is live again and the clock has moved past the last sync or no other key has changed |
| DeltaSync.LaterClockCatchesUpIff | blockchain/utxo.go:815-819 | if every later operation came after the last sync, the removed keys alone decide |
| DeltaSync.DeltaIsAcceptedIff | blockchain/utxo.go:771-801 | for every history, earlier state and sync time, if nothing collides, the delta is accepted if and only if the entries it carries are valid, no removed key is live again and the clock has moved on or no other key has changed visibly |
| DeltaSync.SameSecondIsAcceptedAndWrong | blockchain/utxo.go:804-827 | an output minted and spent in the second of the last sync: the peer accepts and keeps it as unspent, for every hash |
| DeltaSync.MintedAgainIsLost | blockchain/utxo.go:299-317 | an output removed and minted again does not reach a new peer |
| UtxoPool.UTXOPool.AddUTXO | blockchain/utxo.go:127-214 | entries, change record, update time and root after a transaction |
| UtxoPool.UTXOPool.RemoveUTXO | blockchain/utxo.go:299-317 | the entry is gone, the deletion recorded, the root recomputed |
| UtxoPool.UTXOPool.ProcessBlockTransactions | blockchain/utxo.go:1032-1202 | the state after a block, a snapshot at every hundredth height if it can be stored, nothing at all for no block; fails if saving does, with the pool already changed |
| UtxoPool.UTXOPool.CreateSnapshot | blockchain/utxo.go:363-413 | the stored snapshot holds exactly the unspent entries; without a database or when the write fails nothing is stored |
| UtxoPool.UTXOPool.LoadSnapshotAtHeight | blockchain/utxo.go:416-450 | entries, root and time come from the snapshot; on failure nothing changes |
| UtxoPool.LoadedRootIff | blockchain/utxo.go:363-378 | the root kept in a snapshot is the root of its entries if and only if nothing was spent, if nothing collides |
| UtxoPool.UTXOPool.GetBalance | blockchain/utxo.go:892-903 | the sum of the owner's unspent entries |
| UtxoPool.UTXOPool.GetDeltaUpdates | blockchain/utxo.go:804-827 | the record if the pool changed since the last sync, all deletions, and the present root |
| UtxoPool.UTXOPool.VerifyDeltaUpdate | blockchain/utxo.go:771-801 | accepted if and only if all entries are valid and the announced root is that of the result |
| UtxoPool.UTXOPool.ApplyDeltaUpdate | blockchain/utxo.go:830-856 | a failed delta changes nothing; a successful one leaves the pool with the delta's root |
| Gas.NewTransactionIff | blockchain/transaction.go:77-134 | a transaction is created if and only if price, limit and their true product are in range; otherwise which error it is |
| Gas.CreatedTransaction | blockchain/transaction.go:88-131 | every field of a created transaction, with the exact fee |
| Gas.ValidateGasIff | blockchain/transaction.go:310-339 | the gas test in numbers |
| Gas.GasInRangeDoesNotWrap | blockchain/transaction.go:310-339 | for gas in range the 64-bit product is the true product |
| Funding.ReachableIsWellKeyed | blockchain/utxo.go:171-187 | in every reachable pool each entry sits under its own output's key |
| Funding.GetUTXOsForAddress | blockchain/utxo.go:871-882 | exactly the owner's entries, each once |
| Funding.SortByAmount | blockchain/transaction.go:557-559 | the same entries, largest first |
| Funding.TakeUntil | blockchain/transaction.go:565-574 | the unspent entries of the shortest prefix that covers the need, or all of them |
| Funding.Draft.SelectUTXOs | blockchain/transaction.go:542-592 | fails only for lack of funds and then changes nothing; otherwise the greedy choice, with exact change |
| Funding.FewestInputs | blockchain/transaction.go:556-574 | no set of the owner's unspent outputs that covers the need is smaller than the greedy choice |
| Funding.SelectionIsFunded | blockchain/transaction.go:580-589 | the completed transaction is a funded payment |
| Funding.Transfer | blockchain/transaction.go:77-134 | create, fund and apply, on every well-keyed pool: an accepted payment changes every total by its amount, its fee and what it overwrites, a refused one changes nothing |
| Funding.Draft.AssembleFromRequest | RPC/api/transaction.go:225-288 | what the handler assembles: selection with change, the payment, the change again |
| Funding.RequestReturnsChangeTwice | RPC/api/transaction.go:260-286 | on a well-keyed pool that is a payment whose change is returned twice |
| TrieSpec.HashDependsOnSubtree | blockchain/patricia_trie.go:84-116 | the hashes a node can get depend only on the digests below it |
| TrieSpec.HexAt | blockchain/patricia_trie.go:69 | byte i of a digest stands at 2i and 2i + 1 of the text, high half first, in lower case |
| TrieSpec.SomeHash | blockchain/patricia_trie.go:107-115 | every node has a hash |
| TrieSpec.SubtreesDiffer | blockchain/patricia_trie.go:107-115 | two subtrees at the same depth never get the same hash, whatever the orders, if the texts of the trie do not collide |
| TrieSpec.RootIsUniqueIff | blockchain/patricia_trie.go:107-115 | with children visited in any order at every node, the root is unique if and only if there is at most one digest, if the texts of the trie do not collide |
| TrieSpec.SortedRootIsUnique | blockchain/patricia_trie.go:107-115 | with children visited in ascending order the root is a function of the digests, for every hash |
| TrieSpec.TwoDigestsTwoRoots | blockchain/patricia_trie.go:107-115 | two digests with different first bytes: the subtree hashes come in either order, and the two roots are equal only if sha256 collides on them |
| TrieSpec.LastInsertionWins | blockchain/patricia_trie.go:48-71 | after any insertions the content under a digest is the last transaction inserted with it |
| TrieSpec.ListingRebuilds | blockchain/block.go:154-159 | inserting any listing of a trie's content into an empty one gives the same content |
| Trie.PatriciaTrie.constructor | blockchain/patricia_trie.go:31-38 | a new trie is valid and empty |
| Trie.PatriciaTrie.Insert | blockchain/patricia_trie.go:48-71 | the trie stays valid, caches included, and its content gains exactly this transaction |
| Trie.PatriciaTrie.MarkDirty | blockchain/patricia_trie.go:170-177 | the caches of the node and of all its ancestors are cleared and no other |
| Trie.PatriciaTrie.ComputeHash | blockchain/patricia_trie.go:84-116 | with or without caches, and whatever order the map hands out, the result is a hash that recomputing can give, and all caches stay such |
| Trie.PatriciaTrie.GenerateRootHash | blockchain/patricia_trie.go:74-81 | a root that recomputing from the digests alone can give, for empty tries too; asking again gives the same |
| Trie.PatriciaTrie.Search | blockchain/patricia_trie.go:134-146 | the transaction filed under the id's digest, or nothing if there is none |
| Trie.PatriciaTrie.GetAllTransactions | blockchain/patricia_trie.go:149-167 | every transaction of the content exactly once |
| Trie.PatriciaTrie.Len | blockchain/patricia_trie.go:195-213 | the size of the content |
| Trie.PatriciaTrie.InsertBatch | blockchain/patricia_trie.go:41-45 | the content after the insertions in order |
| BlockBody.Execute | blockchain/patricia_trie.go:48-116 | in any interleaving of insertions and root requests every answer is a root that recomputing without caches can give |
| BlockBody.AnswerStands | blockchain/patricia_trie.go:88-94 | between two insertions every request gets the same answer |
| BlockBody.AnswersAgree | blockchain/patricia_trie.go:48-116 | where the roots asked for are unique, the history determines the answers |
| BlockBody.RootIgnoresOrder | blockchain/patricia_trie.go:107-115 | insertions with the same set of digests, in any order, allow the same roots |
| BlockBody.Restore | blockchain/block.go:148-173 | the trie rebuilt from a list, and when its announced root is replaced |
| BlockBody.RoundTrip | blockchain/block.go:79-175 | marshalling and reading back gives the same content and a root of it, which is the same root if children are sorted or there is at most one transaction |
| BlockBody.RoundTripKeepsRootIff | blockchain/block.go:164-173 | as the loop is written, reading back must give the same root if and only if there is at most one transaction, if the texts of the trie do not collide |
| Chain.ValidateChainSegment | blockchain/blockchain.go:376-395 | accepts exactly the segments linked by hash, number and cumulative difficulty |
| Chain.ValidateCandidateChain | blockchain/blockchain.go:419-452 | accepts exactly the non-empty linked chains whose block 0, if included, is a proper start |
| Chain.ValidChainIff | blockchain/blockchain.go:419-452 | acceptance written out: a proper block 0 if it is included, and hash, number and cumulative difficulty of every link, with 64-bit wrap-around |
| Chain.CumulativeIsWork | blockchain/blockchain.go:443-449 | in an accepted chain from block 0 the tip carries the sum of the difficulties modulo 2^64 |
| Chain.CumulativeIsExact | blockchain/blockchain.go:443-449 | up to 2^32 blocks nothing wraps |
| Chain.FindCommonAncestor | blockchain/blockchain.go:363-373 | the local position of the last candidate block the local chain has, or -1 |
| Chain.AgreeBackTo | blockchain/blockchain.go:765-790 | agreement of two linked chains at one height spreads back to every lower height, if among their blocks equal hashes mean equal headers |
| Chain.AncestorIsCommonPrefix | blockchain/blockchain.go:363-373 | on linked chains with the same block 0 the search finds the end of the longest common prefix |
| Chain.Blockchain.ReorganizeChain | blockchain/blockchain.go:398-416 | the spliced chain if it is valid, else the old chain |
| Chain.Blockchain.ResolveFork | blockchain/blockchain.go:328-360 | succeeds exactly under its five conditions; otherwise the chain is unchanged |
| Chain.ResolvedIsBetter | blockchain/blockchain.go:328-360 | a changed chain is valid, longer, heavier, keeps the part up to the ancestor and ends in the candidate's tip |
| Chain.TamperedSegmentIsRefused | blockchain/blockchain.go:342-345 | a candidate whose copy of the shared block claims another cumulative difficulty is refused although the spliced chain would do |
| Chain.ForkChoiceIff | blockchain/blockchain.go:328-360 | between valid chains with the same block 0 the candidate is adopted whole if and only if it is longer and heavier |
| Chain.ReplaceAgreesWithForkIff | blockchain/blockchain.go:455-466 | replacement and fork resolution treat such a candidate alike if and only if it is not longer without being heavier |
| Chain.HeldIsContender | blockchain/blockchain.go:328-360 | whatever a node hears, it holds its first chain or a candidate that beats it |
| Chain.NodesConvergeIff | blockchain/blockchain.go:328-360 | all orders of arrival end in a given chain if and only if that chain is a contender that beats all other contenders |
| Chain.NodesCanEndApart | blockchain/blockchain.go:328-360 | a longer and a heavier branch of the same block 0: each order of arrival ends in another chain |
| Chain.Blockchain.ReplaceChain | blockchain/blockchain.go:455-466 | replaced exactly by longer valid chains |
| Chain.LongerCanBeLighter | blockchain/blockchain.go:455-466 | replacement can lower the cumulative difficulty |
| Chain.Blockchain.RollbackToHeight | blockchain/blockchain.go:702-712 | keeps the blocks up to the height, or fails and keeps all |
| Chain.Blockchain.AddBlock | blockchain/blockchain.go:208-259 | appends exactly the blocks that carry the next number and the tip's hash, with current hash and validator; a failed write fails the call and leaves the block |
| Chain.AppendKeepsValidIff | blockchain/blockchain.go:208-240 | an appended block keeps the chain valid if and only if its cumulative difficulty adds up |
| Chain.RunStaysLinkedIff | blockchain/blockchain.go:398-466 | from any linked chain, over any run of fork resolution, replacement, rollback and appending, the chain stays linked all along if and only if every appended block continues number and cumulative difficulty |
| Chain.RunStaysValidIff | blockchain/blockchain.go:398-466 | the same with validity, from any valid chain |
| Chain.BuiltInGenesisIsLinked | blockchain/block.go:603-631 | the built-in genesis is linked, so runs from it are covered, though it is not a valid chain |
| Chain.RollbackIsUndone | blockchain/blockchain.go:702-712 | rolling back and appending the dropped blocks again restores the chain |
| Chain.BuiltInGenesisBlocksForkChoice | blockchain/block.go:603-631 | a chain starting with the built-in genesis is invalid and fork resolution never changes it |
| Mempool.ValidateTransaction | blockchain/mempool.go:114-217 | accepts exactly the system transactions and the signed, funded ones with gas in range |
| Admission.AdmissionIff | blockchain/mempool.go:114-217 | a regular or stake transaction is admitted if and only if its gas is in range, a stake has its shape, every input is an unspent output of the sender, the inputs cover the amount and, unless it is a stake, the largest fee computed with 64 bits, and the signature is good |
| Admission.SystemIsAdmitted | blockchain/mempool.go:117-120 | coinbase and validator rewards are admitted without any test |
| Mempool.InputSumIff | blockchain/mempool.go:161-179 | an input total exists exactly when every input is a live output of the sender |
| Mempool.SortedIsInOrder | blockchain/mempool.go:92-94 | the result of the sort is in order |
| Mempool.SortedPermutes | blockchain/mempool.go:92-94 | the sort permutes |
| Mempool.SortedIsStable | blockchain/mempool.go:92-94 | transactions of equal rank keep their order |
| Mempool.Mempool.AddTransaction | blockchain/mempool.go:36-111 | admitted exactly if new, acceptable, and there is room or it pays more than the cheapest; the pool after it |
| Mempool.AdmittedIsIn | blockchain/mempool.go:36-111 | an admitted offer is in the pool afterwards; one that is not admitted changes at most the order |
| Mempool.PoolIsTopOfOffers | blockchain/mempool.go:36-111 | after any offers with distinct ids the pool is the best maxSize of all valid ones, sorted, ties by arrival |
| Mempool.KeptPayMost | blockchain/mempool.go:64-94 | the pool is sorted and bounded, and nothing turned away pays more than anything kept |
| Mempool.Mempool.RemoveTransaction | blockchain/mempool.go:237-248 | exactly the transactions with other ids stay, in order |
| Mempool.WithoutKeepsOthers | blockchain/mempool.go:241-247 | nobody with the id stays, and everybody else stays as often as before |
| Mempool.WithoutInParts | blockchain/mempool.go:241-247 | the order is kept: removal works part by part |
| Mempool.WithoutNobody | blockchain/mempool.go:241-247 | a pool without the id is left as it is |
| Mempool.Mempool.SyncMempool | blockchain/mempool.go:326-379 | the pool and the expiry times after taking over a peer's young transactions |
| Mempool.TakenIff | blockchain/mempool.go:338-352 | a transaction is taken over if and only if its id was unknown and it is at most a day old |
| Mempool.EvictedKeepsBest | blockchain/mempool.go:366-379 | what an eviction keeps pays more than what it drops or, for the same fee, is not older; it drops no more than it must |
| Mempool.ExpiryAt | blockchain/mempool.go:359-361 | the ids taken over expire a day from now, all others as before |
| Mempool.PoolStaysWithinOne | blockchain/mempool.go:347-379 | in any run the pool holds at most maxSize + 1, and at most maxSize if there was no sync |
| Mempool.SyncOverflowsIff | blockchain/mempool.go:347-379 | a sync leaves maxSize + 1 transactions if and only if the pool and those taken over exceed maxSize |
| Mempool.SyncKeepsDistinctIff | blockchain/mempool.go:326-379 | a sync keeps ids distinct if those it takes over are distinct, and if it drops nothing, only then |
| Mempool.PoolKeepsDistinctIds | blockchain/mempool.go:326-379 | in any run of additions, removals and syncs no id occurs twice, if none occurs twice in a peer's list |
| Mempool.ListedTwiceIsInTwice | blockchain/mempool.go:331-342 | a transaction listed twice by a peer is in the pool twice |
| BlockBuilder.PackTransactions | blockchain/block.go:204-229 | the included ones are the greedy choice up to the first that does not fit; receipts, gas and set belong to them |
| BlockBuilder.ChosenOfferByOffer | blockchain/block.go:208-229 | offer by offer: nothing from the first offer on that would take the gas above 15,000,000, before it exactly those acceptable against the set the earlier ones leave |
| BlockBuilder.GasOneMore | blockchain/block.go:391-405 | each transaction adds 23,000 and 16 for each byte of its data |
| BlockBuilder.ReceiptFields | blockchain/block.go:217-223 | every field of every receipt, with the running total of gas |
| BlockBuilder.NoDoubleSpend | blockchain/block.go:208-229 | with distinct fresh ids no two accepted transactions spend the same output |
| BlockBuilder.PackedSpendApart | blockchain/block.go:208-229 | if the offers have distinct fresh ids, no two transactions of the packed list spend the same output |
| BlockBuilder.NamedOnceIff | blockchain/block.go:208-229 | then no output is named twice in the whole list if and only if no transaction of it names one twice |
| BlockBuilder.PackedSpendsOwn | blockchain/block.go:214-227 | every output a packed transaction spends is, at its turn, live and unspent and belongs to its sender |
| Admission.CountedIsSpentIff | blockchain/mempool.go:161-179 | with positive amounts, the inputs counted are worth at least what is spent, and exactly that if and only if no input is named twice |
| Admission.RepeatedInputMintsIff | blockchain/mempool.go:161-206 | an accepted transaction that pays out what was counted less its fee, and overwrites nothing, burns exactly its fee if and only if no input is named twice |
| Admission.AcceptedMintsIff | blockchain/mempool.go:182-196 | an accepted transaction that overwrites nothing mints if and only if its outputs are worth more than what it spends, which for distinct inputs is what was counted |
| BlockBuilder.SpentHasOrigin | blockchain/block.go:208-229 | every output spent in a block was there at the start or was made earlier in the block |
| BlockBuilder.CalculateReceiptsRoot | blockchain/block.go:438-451 | "0x" and the Merkle root of the hashed receipts, or the zero root if there are none |
| BlockBuilder.OneReceiptRoot | blockchain/block.go:438-451 | for a single receipt, "0x" and the hash of its printed form |
| BlockBuilder.NewBlock | blockchain/block.go:188-241 | gas used is the last prefix sum and within the limit, every output spent was there or made earlier in the block and, for offers with distinct fresh ids, no two transactions spend the same one; the roots are those of body, set and receipts, and the block extends its predecessor |
| BlockLifecycle.ListingIffOrder | blockchain/patricia_trie.go:149-167 | if the digests of the ids differ, the listings of a body are exactly the orders of the transactions put into it |
| BlockLifecycle.ListingsReachAnnouncedIff | blockchain/utxo.go:1051-1127 | for every pool, every listing of a body leads to the live set announced by the builder if and only if no transaction spends another's output |
| BlockLifecycle.BuildAndProcess | blockchain/utxo.go:1032-1202 | a block built on the live set of a pool and processed by it announces the state root of the live set it ends with, if no transaction spends another's output |
| Selection.WeightedSelection | blockchain/validator_selection.go:69-100 | even if the sum wraps, a validator is selected exactly when the wrapped sum is not zero: the first to reach the target |
| Selection.LoopPicks | blockchain/validator_selection.go:84-97 | without overflow the loop picks by the true running sums |
| Selection.CountIsShare | blockchain/validator_selection.go:80-87 | over all targets each validator is picked as often as its weight, the first once more, the last with weight once less |
| Selection.CountsAddUp | blockchain/validator_selection.go:80-87 | the counts add up to the number of targets |
| Slashing.SlashingManager.HandleViolation | blockchain/slashing.go:47-80 | violations, evidence, status, stake and community pool after a violation, in every case |
| Slashing.SlashingManager.SlashValidator | blockchain/slashing.go:83-108 | whole units leave the stake, half the stake enters the community pool |
| Slashing.ViolateRun | blockchain/slashing.go:47-108 | a run of violations of one validator touches no other stake |
| Slashing.StakeAfterViolations | blockchain/slashing.go:47-108 | two violations are free; after 2 + k the stake is the amount over 2^k, rounded up |
| Slashing.StakeNeverRunsOut | blockchain/slashing.go:83-93 | no number of violations takes the last unit |
| Slashing.WorthAfterViolations | blockchain/slashing.go:90-100 | stake and community pool together grow by one half per slash of an odd amount |
| Slashing.SlashingConservesIff | blockchain/slashing.go:90-100 | k slashes create nothing if and only if 2^k divides the stake |
| StakePool.StakePool.RecordViolation | blockchain/stake_pool.go:384-403 | the stake after a violation; an unknown address changes nothing |
| StakePool.SlashingsAgree | blockchain/stake_pool.go:393-398 | both ways of slashing leave the same amounts, violation by violation |
| StakePool.StakePool.MergePeer | blockchain/stake_pool.go:516-553 | whatever order the map is visited in, exactly the new and larger entries are taken, with their hosts |
| StakePool.MergesAreMaximum | blockchain/stake_pool.go:516-553 | after any merges the amount is the maximum of the local one and all those offered |
| StakePool.MergesNeverLower | blockchain/stake_pool.go:516-553 | no run of merges lowers or removes a stake |
| StakePool.PeerOrderIrrelevant | blockchain/stake_pool.go:516-553 | amounts depend on which peers were heard, not on order or repetition |
| StakePool.MergeIsIdempotent | blockchain/stake_pool.go:516-553 | hearing the same peer again changes nothing, hosts included |
| StakePool.MergeKeepsHosts | blockchain/stake_pool.go:533-548 | the host table keeps naming the host of every stake |
| StakePool.LoweredIff | blockchain/stake_pool.go:393-398 | n violations lower a stake if and only if one of them reaches the threshold and the stake is at least 2 |
| StakePool.StalePeerUndoesSlashIff | blockchain/stake_pool.go:540-548 | a peer with the entry from before n violations restores it if and only if n = 0, or the violations then number at least 3 and the stake was at least 2 |
| Heartbeat.ValidatorProtocol.HandleHeartbeat | blockchain/validator_protocol.go:88-106 | both tables after a heartbeat |
| Heartbeat.ValidatorProtocol.HandleValidatorTimeout | blockchain/validator_protocol.go:122-138 | one more timeout, removal at the third, nobody else affected |
| Heartbeat.ValidatorProtocol.CheckValidatorHeartbeats | blockchain/validator_protocol.go:109-119 | whatever order the map is visited in, exactly the late ones are timed out, each once |
| Heartbeat.ValidatorProtocol.RemoveValidator | blockchain/validator_protocol.go:189-196 | gone from both tables |
| Heartbeat.RunAt | blockchain/validator_protocol.go:88-138 | a run seen from one validator is a run of that validator alone |
| Heartbeat.TablesAgree | blockchain/validator_protocol.go:88-138 | in every run the tables have the same keys and nobody listed has more than two timeouts |
| Heartbeat.ActiveIff | blockchain/validator_protocol.go:88-138 | in every run a listed validator has a last heartbeat whose time both tables hold, and is active if and only if no check since came more than 90 s after it |
| Heartbeat.HeartbeatsAreCounted | blockchain/validator_protocol.go:93-104 | the count is the number of heartbeats since the validator was listed |
| Heartbeat.PunctualStaysActive | blockchain/validator_protocol.go:109-125 | one heard within 90 s before every check is never inactive and has no timeouts |
| Heartbeat.SilentIsRemovedIff | blockchain/validator_protocol.go:122-138 | a silent validator is gone if and only if its timeouts and the late checks make three |
| Heartbeat.GoneByThirdLateCheck | blockchain/validator_protocol.go:122-138 | one silent from time t is gone by the third check after t + 90 s |
| Heartbeat.TimeoutsAreForLife | blockchain/validator_protocol.go:93-96 | the timeouts of a listed validator are all the checks it ever missed, whatever it beat in between |
| Supply.CalculateBlockReward | blockchain/blockchain.go:1628-1661 | the halving loop gives the power form, plus fees, with the floor |
| Supply.FeesInParts | blockchain/blockchain.go:1644-1651 | fees add up over parts of the block |
| Supply.FeeOfOne | blockchain/blockchain.go:1644-1651 | a coinbase brings no fee, any other transaction its own |
| Supply.HalvingIsPowerForm | blockchain/rewards.go:48-52 | halving repeatedly is dividing by the power of two |
| Supply.RewardFunctionsAgreeIff | blockchain/rewards.go:48-52 | the calculator and the miner agree on a block's subsidy if and only if it does not open a halving period |
| Supply.MintedClosedForm | RPC/api/blockchain.go:215-242 | the sum of all subsidies in closed form |
| Supply.MintedBounded | RPC/api/blockchain.go:215-242 | the supply stays below 21,000,000 and every block adds to it |
| Supply.CirculatingSupply | RPC/api/blockchain.go:224-242 | the loop ends and equals the sum of the subsidies of blocks 1 to height |
| Signature.BytesRoundTrip | blockchain/crypto.go:25-28 | minimal big-endian bytes read back give the number |
| Signature.SplitRecoversIff | blockchain/crypto.go:41-46 | cutting in the middle recovers r and s if and only if s has as many bytes as r or one more |
| Signature.ShortSIsMisread | blockchain/crypto.go:41-46 | r = 256, s = 1 is read back as r = 1, s = 1 |
| Witnesses.ThirdProofFails | blockchain/block.go:862-915 | three leaves under a combiner of the form sha(a + b) with no collision among the pairs combined: the proof of the third leads elsewhere |
| Witnesses.OneTrieTwoRoots | blockchain/patricia_trie.go:107-115 | two digests and a hash with no collision among the texts of their trie: two different roots are possible |
| Witnesses.BobIsPaidOnce | blockchain/transaction.go:137-149 | two funded payments of 4 with the same id leave the receiver 4 richer |
| Witnesses.TwiceIsPackedAndMints | blockchain/mempool.go:161-179 | a payment of 15 out of one coin of 10 named twice is admitted, packed and mints 5 |
| Witnesses.GenerousIsAcceptedAndMints | blockchain/mempool.go:182-196 | a payment of 1 whose output says 100 is admitted and mints 90 |

## Left out

- Networking, peer discovery, RPC plumbing and the user interface: streams and formatting.
- The database wrappers: storing is a parameter that succeeds or fails.
- Key generation, ECDSA, AES, mnemonics and HD wallets: foreign cryptography.
- Account states: they are credited with the change and then debited amount and fee, and again on replay, so they do
  not track the pool's balances.
- VerifyStateChunk and verifyMerkleProof: their leaf text or pair order differs from the pool root's.
- HandleReorg, SubmitVote and SelectValidator as whole calls: each takes a lock it already holds.
- ResolveChainConflict, the exported AddBlockWithoutValidation (`blockchain/blockchain.go:521`; `Chain.Blockchain.AddBlock`
  models the unexported one at line 208) and FastForwardToCheckpoint: they install blocks without checks.
- DeltaSync.EveryEarlierStateExplained: histories consist of transactions, blocks and removals; loading a snapshot or
  applying a delta replaces entries without recording them, so the record says nothing across those.
- Funding.ReachableIsWellKeyed: the same histories.
- Gas price and gas limit models, scores, nonces and configuration: one-branch facts.
- Rounding of `float64` and the printed form of amounts: amounts are `real`, their text is a parameter.
- BlockBuilder.NewBlock: the order of the offered transactions (fee and age) is a parameter, the trie is filled after
  the loop instead of inside it, and gas sums are unbounded.
- UtxoPool.UTXOPool.AddUTXO: logging, account states and the saved copy of the map are not modelled.
- Slashing.SlashingManager.HandleViolation: the stake pool is its table of amounts, and a stored event is only its success.
