# A verified model of the BetterCallChain ledger

BetterCallChain is a proof-of-stake UTXO chain: a node keeps blocks, unspent
outputs and a validator registry in a key-value store, holds unconfirmed
transactions in a bounded pool, proposes a block when the stake-weighted
election picks it, and replaces its tip by a rival with a lower hash. This
project models those parts in Dafny and proves what every run of a node keeps.
`dafny verify dfyconfig.toml` checks all of it.

## How it is built

| file | what it holds |
|---|---|
| `Types.dfy` | transactions, blocks, digests, signatures, machine integers |
| `Ledger.dfy` | applying and rolling back transactions as functions on values |
| `Merkle.dfy`, `Election.dfy`, `Validators.dfy`, `Validation.dfy` | the block and transaction checks |
| `Storage.dfy`, `SledStore.dfy`, `MemoryStore.dfy` | the two stores; the persistent one keeps a ghost journal of every durable state |
| `Chain.dfy`, `Conservation.dfy`, `Durability.dfy` | what a stored chain stands for, what its outputs are worth, what each durable write leaves behind |
| `Mempool.dfy`, `TopK.dfy` | the pool, and the pool as a streaming top-k |
| `Node.dfy`, `Proposals.dfy`, `Runs.dfy`, `Genesis.dfy`, `ForkChoice.dfy` | node steps, whole runs, fork choice |
| `Ibd.dfy`, `Downloads.dfy` | the initial download, and what whole downloads come to |
| `Scenario.dfy`, `Counterexamples.dfy`, `Resurrection.dfy` | one careful run in full; the blocks and runs that break what careful runs keep |
| `Wallet.dfy`, `Split.dfy`, `Calendar.dfy`, `Sorting.dfy` | client algorithms, timestamps, the library sort |

Code that updates state is a class or a method with loops, proved against a
function on values; the theorems are about those functions, or about relations
between whole states (`Runs.Step`), which the node's methods are proved to
perform (`Runs.TakeBlock`, `TakeTx`, `TakeSlot`).

## What is taken for granted

* Hashing and signing are symbolic. A digest is the term that was hashed, so it
  is injective and the preimages of different kinds (transaction, header, pair
  of digests, seed) never coincide; a signature verifies exactly when the
  matching key made it over the same message. The byte value of a digest, which
  orders rival blocks and draws proposers, is a parameter (`Params`) about which
  nothing is assumed; the fork choice theorems speak of a rival whose hash is
  strictly below the other hashes.
* Addresses are numbers (their rank as strings) and determined by public keys.
* Amounts and stakes are `u64`. Sums wrap around or saturate exactly where the
  code's sums do, as in the release build the repository ships. Block heights
  and output indexes are unbounded: an index cut to 32 bits needs a transaction
  larger than the largest network frame.
* A multi-tree store transaction is one durable write. Store, lock and encoding
  errors do not occur. A node step is atomic; nothing in the code serialises two
  steps on different threads.
* The unstable sort is any permutation in key order (`Sorting`).
* The clock is not negative and the slot length is between 1 and the largest
  `i64` (`ClockOk`). A zero length makes the ticker's division fail; a longer one
  turns negative in the cast and is not part of this model.

## What the code relies on without checking it

Some theorems hold of every run (`Runs.IsRun`): the stored blocks form a linked
chain with its index and tip record (`Runs.RunIsShaped`), and what is below the
tip is final (`Runs.RunDescends`).

That the coins are the replay of the stored blocks is not one of them. It holds in
all states of a run if and only if each reorg makes up for what undoing the old
tip loses (`Runs.RunReplays`), and in every durable state in between if and only
if nothing is lost at all (`Runs.RunIsDurable`). Undoing a block loses an output
that was there before the block and that the block makes once more
(`Ledger.RollbackLeaves`). In a run that stores blocks with new outputs only
nothing is lost (`Runs.FreshRunReplays`), but the code does not see to that:
`Resurrection.ResurrectionRun` is a run in which a stored output is missing from
the coins in the end.

That the stored chain is valid, and what follows for the total, needs these
conditions on the steps of a run (`Runs.Careful`) and on the stored blocks; they
also make all outputs new. A block, a run or an exact condition shows what breaks
without each.

* Output sums do not wrap around. `Counterexamples.AcceptedOverflow` is an
  accepted block with a transaction that spends nothing; it adds 2^64 to the
  total.
* No stored block names an output twice as an input; this matters only for the
  total. `Conservation.DoubleSpendPasses` doubles any output on any coins, and
  `Counterexamples.AcceptedDoubleSpend` is such a block accepted on the genesis
  block.
* A rival that replaces the tip spends no output of that tip. It is checked while
  the tip is still applied; `Validation.RivalOnParent` says that it is valid on
  the parent exactly under that condition. Otherwise the new tip is invalid and
  the total rises by exactly what it took from the old one (`Runs.ReorgMints`);
  `Counterexamples.MintingRun` is a whole run of this kind. Such a reorg on a valid
  chain still leaves the replay of its blocks; a later one need not, as
  `Resurrection.ResurrectionRun` goes on to show.
* Transactions drained from the pool are still valid: nothing removes the ones
  that an arriving block made stale. `Counterexamples.StaleRun` is a run in which
  the node stores a proposal that its own validator refuses.
* The genesis block is not dated after the clock. `Proposals.ProposedBlockPasses`
  is exact in this and in the previous condition.

The initial download relies on answers that start where they were asked to. One
that comes twice, after a timeout and a second request, fails the download of a
valid chain unless its blocks are empty, and leaves the tip record behind
(`Downloads.LateAnswer`). One that goes back to height 0 replaces the genesis
block (`Ibd.GenesisUnchecked`).

## Where the code and its documentation disagree

The model follows the code.

* `crates/bcc-node/src/storage/sled_store.rs:171-174` describes a recovery at
  startup from the sentinel. There is none, and the sentinel could not drive it
  (`Durability.SentinelIsNoEvidence`); the stored tip's outputs could
  (`LagShowsInOutputs`, `ReapplyingRepairs`).
* `crates/bcc-node/src/p2p/handler.rs:278` and `crates/bcc-node/src/state.rs:56`
  call the reorg atomic. It is six durable writes; `Durability.ReorgCrash` says
  what each leaves.
* `crates/bcc-node/src/p2p/handler.rs:227-230` says that all nodes converge to the
  rival with the lower hash. They do in any order of arrival if and only if it
  shares no input with the others (`ForkChoice.ConfluentIffDisjoint`): the check
  is made above the old tip, where a shared input is gone.
* `crates/bcc-client/src/wallet.rs:61-81` describes one message per input,
  including the input's reference and amount. The code signs one message for all
  inputs: kind, references, outputs.
* `crates/bcc-client/src/wallet.rs:22` calls the selection minimal. It takes the
  smallest coins, as many as it needs, so no cover without a redundant coin is
  longer; but it may itself hold a redundant coin, and other covers may have
  fewer (`Wallet.SelectionWastes`: coins 1 and 10, target 10).
  `Wallet.MinimalIff` says exactly when it is minimal in either sense. With no
  coins at all and target 0 it fails.
* `crates/bcc-client/src/split.rs:16` promises exactly the target count. A target
  beyond the amount is never reached, and some targets below it are not either:
  one coin more than a power of two needs the next power of two in units
  (`Split.OneMoreThanPower`).
* `crates/bcc-node/src/genesis.rs:65` calls applying genesis idempotent. It
  returns as soon as a block 0 is stored, so a start after a crash in the middle
  does not complete it (`Genesis.RestartCompletes`), and one after a start that
  failed at a validator reports success (`Genesis.StartTwice`).
* `crates/bcc-node/src/genesis.rs:151` calls the Merkle root of the genesis block
  unique per chain. It is the hash of the message, so the genesis hash covers the
  message and the timestamp: genesis blocks with different accounts can have one
  hash (`Genesis.GenesisHashBinds`).
* The in-memory store's balance wraps around where the persistent one saturates.

## Model

| member | source | states |
|---|---|---|
| Ledger.RollbackUndoesApply | crates/bcc-node/src/storage/sled_store.rs:187-247 | Rolling a block back restores the unspent outputs and the spent records exactly if and only if nothing is lost, for any block: missing and repeated inputs and chains of spends inside the block included |
| Ledger.RollbackLeaves | crates/bcc-node/src/storage/sled_store.rs:187-247 | What it leaves of any block: the records as before, and all coins except those that were there before and that the block makes once more, unless it spends them first and never after |
| Ledger.LostIffFresh | crates/bcc-node/src/storage/sled_store.rs:201-247 | A block that spends none of its own outputs loses nothing if and only if its outputs are new |
| Ledger.RollbackUnapplied | crates/bcc-node/src/storage/sled_store.rs:221-247 | Rolling back a block that was never applied removes outputs of its names and nothing else |
| Ledger.ApplyWithout | crates/bcc-node/src/storage/sled_store.rs:187-210 | Applying a block to coins that lack some gives what it gives with them if and only if it makes each of those before it reads it, or spends it once made |
| Ledger.OrderIrrelevant | crates/bcc-core/src/store/memory.rs:97-110 | Two lists with the same transactions, in any order and multiplicity, give the same coins and records when none spends an output of the list |
| Types.WrapsAround | crates/bcc-core/src/consensus/pos.rs:20 | An unchecked sum or cast leaves a number of its type that differs from the exact one by a multiple of 2^64 |
| Merkle.ComputeMerkleRoot | crates/bcc-core/src/types/block.rs:46-71 | The layer-by-layer loop ends in the root of the tree that a level-and-position specification names |
| Merkle.RootListsInOrder | crates/bcc-core/src/types/block.rs:46-71 | Read from left to right the leaves under the root begin with the transactions' hashes in their order; the tree has the least power of two of leaves that holds them |
| Merkle.RootBindsLength | crates/bcc-core/src/types/block.rs:46-71 | Two transaction lists of one length with one root are equal |
| Merkle.RootBindsDistinct | crates/bcc-core/src/types/block.rs:46-71 | Two lists without repeated transactions and with one root are equal, lengths included |
| Merkle.RootBindsMembers | crates/bcc-core/src/types/block.rs:46-71 | Two lists with one root hold the same transactions, however often each is repeated |
| Merkle.RootIgnoresPadding | crates/bcc-core/src/types/block.rs:51-58 | An odd list longer than one has the root of itself with its last transaction repeated |
| Election.ElectProposer | crates/bcc-core/src/consensus/pos.rs:11-48 | The scan returns the owner of the first running total that passes the draw, unchecked sums included; `SeedElects` says whose draw that is |
| Election.SeedElects | crates/bcc-core/src/consensus/pos.rs:26-44 | Without overflow the first eight bytes of the hash of parent hash and slot, read as a number modulo the total stake, elect the validator whose segment they fall into, and with different entries no other |
| Election.ElectionIsTotal | crates/bcc-core/src/consensus/pos.rs:36-47 | The scan never falls through: somebody from the list is elected exactly when the wrapped total stake is not zero |
| Election.WinsItsSegment | crates/bcc-core/src/consensus/pos.rs:38-44 | Without overflow a validator wins exactly the picks inside its own segment of the line |
| Election.WinsItsStake | crates/bcc-core/src/consensus/pos.rs:20-44 | Each validator wins exactly `stake` of the picks below the total |
| Election.DrawsElecting | crates/bcc-core/src/consensus/pos.rs:31-44 | The number of 64-bit draws that elect a validator lies between q and q + 1 times its stake, q the quotient of 2^64 by the total |
| Validators.ActiveListIs | crates/bcc-node/src/storage/sled_store.rs:332-347 | The persistent store's key order yields the validators with a stake that are active since the slot or earlier, all of them, in strictly ascending address |
| Validators.ActiveListUnique | crates/bcc-core/src/store/memory.rs:171-174 | Order and membership leave only one such list, so every node scans the same one |
| MemoryStores.MemoryStore.AllActive | crates/bcc-core/src/store/memory.rs:160-174 | Collecting in any order and sorting by address gives the persistent store's list |
| MemoryStores.SortedIsActiveList | crates/bcc-core/src/store/memory.rs:160-174 | Any sorted permutation of the active validators is that list |
| MemoryStores.MemoryStore.ApplyBlock | crates/bcc-core/src/store/memory.rs:93-114 | New coins, and the height's undo list: what each input took, in order |
| MemoryStores.MemoryStore.RollbackBlock | crates/bcc-core/src/store/memory.rs:116-131 | All outputs of the block removed, then the undo list put back and dropped; a height without a list only loses outputs |
| MemoryStores.MemoryStore.GetBalance | crates/bcc-core/src/store/memory.rs:133-143 | The balance modulo 2^64, in whatever order the outputs come |
| MemoryStores.FlatRollbackUndoes | crates/bcc-core/src/store/memory.rs:93-131 | The flat undo list restores the coins if and only if no transaction of the block spends an output that an earlier one created |
| MemoryStores.StoresAgree | crates/bcc-core/src/store/memory.rs:116-131 | On a block whose inputs all existed before it, both stores undo to the same coins |
| Validation.ValidateTransaction | crates/bcc-core/src/validation/transaction.rs:59-104 | Ok exactly for valid transactions, in the sense of `ValidMeansSigned`; otherwise the error names the first check that failed and where |
| Validation.ValidMeansSigned | crates/bcc-core/src/validation/transaction.rs:59-104 | A transaction is valid if and only if it has outputs, all positive, each input is signed over kind, references and outputs with the key that owns the unspent output it names, and the output sum modulo 2^64 is no more than the inputs are worth |
| Validation.SignatureBinds | crates/bcc-core/src/validation/transaction.rs:88-89 | A signature that passes for two transactions fixes their kind, input references and outputs |
| Validation.CreatesNoValue | crates/bcc-core/src/validation/transaction.rs:75-101 | A valid transaction whose output sum does not wrap around creates no value |
| Validation.WrappedOutputsPass | crates/bcc-core/src/validation/transaction.rs:94-101 | Two outputs of 2^63 and no input pass on any unspent outputs |
| Validation.OneSnapshotOrInTurn | crates/bcc-core/src/validation/block.rs:109-113 | Checking all transactions against the coins before the block is checking each in turn, exactly when the block neither spends an output twice nor spends its own outputs; the check itself enforces the second |
| Validation.ValidateBlock | crates/bcc-core/src/validation/block.rs:52-116 | The verdict, with the first check that fails, in the code's order and with its casts and unchecked products |
| Validation.ValidBlockIs | crates/bcc-core/src/validation/block.rs:52-116 | A block is valid on a parent if and only if it has the next height and names the parent's hash, its timestamp is not before the parent's and before the end of its slot, the validator elected for that slot on that parent is its proposer and signed its header, its Merkle root is that of its transactions, and each of them is valid |
| Validation.InvalidBlockIs | crates/bcc-core/src/validation/block.rs:52-116 | Each error of an invalid block: the check it names fails and all earlier ones hold |
| Validation.RivalOnParent | crates/bcc-node/src/p2p/handler.rs:266-286 | A rival that passed while the old tip was applied is valid on the parent if and only if it spends no output of that tip |
| Validation.RivalThroughTip | crates/bcc-node/src/p2p/handler.rs:266-276 | A rival valid on the parent passes the check made above the old tip if and only if it shares no input with that tip |
| Chain.IndexInverse | crates/bcc-node/src/storage/sled_store.rs:122-137 | The hash index is the exact inverse of the height map |
| Chain.GoodChainLinks | crates/bcc-core/src/validation/block.rs:59-67 | Heights count from the genesis block and each block names its parent's hash |
| Chain.CoinsOfGoodChain | crates/bcc-core/src/store/memory.rs:97-111 | The unspent outputs are exactly those created minus those spent, each with the value it was created with |
| Chain.NoTransactionTwice | crates/bcc-core/src/validation/transaction.rs:75-101 | No transaction is in two blocks of a chain |
| Chain.AcceptedIsFresh | crates/bcc-node/src/storage/sled_store.rs:187-210 | An accepted block creates no output that existed before it, spends none of its own, and meets no records at its height |
| Conservation.OverwritesIffRepeated | crates/bcc-node/src/storage/sled_store.rs:201-210 | Inserting a block's outputs in turn never overwrites one if and only if no transaction is in the block twice |
| Conservation.AcceptedNeverOverwrites | crates/bcc-node/src/storage/sled_store.rs:187-210 | An accepted block with distinct inputs overwrites nothing |
| Chain.RecordsOfBlock | crates/bcc-node/src/storage/sled_store.rs:191-198 | The spent records at a height are exactly the outputs its block consumed, with the values they had before it |
| Chain.NoGenesisRecords | crates/bcc-node/src/genesis.rs:85-101 | The genesis block leaves no spent records |
| Chain.ValidIsUnconfirmed | crates/bcc-core/src/validation/transaction.rs:75-101 | A transaction that is valid now is in no block of the chain |
| Chain.BlocksFromChain | crates/bcc-node/src/storage/sled_store.rs:147-156 | Iterating from a height yields the stored chain's blocks from there on, in order |
| Conservation.BlockMovesValue | crates/bcc-core/src/store/memory.rs:93-114 | A valid block that repeats no transaction changes the total by exactly outputs minus inputs if, and with positive amounts only if, its inputs are distinct |
| Conservation.AcceptedMovesValue | crates/bcc-core/src/validation/transaction.rs:75-101 | An accepted block with distinct inputs changes the total by outputs minus inputs, which is never positive |
| Conservation.ValueNeverRises | crates/bcc-core/src/validation/transaction.rs:75-101 | Along a chain the total never rises after any block from the genesis block on |
| Conservation.BalancesAddUp | crates/bcc-node/src/storage/sled_store.rs:280-293 | Over any addresses that include all owners the balances add up to the total |
| Conservation.NewOutsWorth | crates/bcc-core/src/store/memory.rs:105-109 | What a list of transactions creates is worth its output sums exactly when no transaction of value is repeated |
| Conservation.DoubleSpendPasses | crates/bcc-core/src/validation/block.rs:109-113 | On any coins, two payments of one output to different payees pass the block's transaction check and add that output's amount to the total |
| Conservation.RivalMints | crates/bcc-node/src/storage/sled_store.rs:187-210 | A rival checked above the tip and applied on the parent mints exactly the worth of what it spends of the tip's outputs, nothing if and only if it spends none |
| SledStores.SledStore.Insert | crates/bcc-node/src/storage/sled_store.rs:122-137 | Height map, hash index and tip record change in one durable write |
| SledStores.SledStore.ApplyBlock | crates/bcc-node/src/storage/sled_store.rs:175-217 | The nested loops compute the ledger's application, in three durable writes: sentinel, coins with records, sentinel cleared |
| SledStores.SledStore.RollbackBlock | crates/bcc-node/src/storage/sled_store.rs:221-278 | The reversed loops compute the ledger's rollback; the block, its index entry and the tip go in a second write |
| SledStores.SledStore.GetByHash | crates/bcc-node/src/storage/sled_store.rs:107-120 | A block is found exactly when the hash is indexed at a stored height |
| SledStores.SledStore.IterFrom | crates/bcc-node/src/storage/sled_store.rs:147-156 | The stored blocks from a height on, in ascending height |
| SledStores.SledStore.GetBalance | crates/bcc-node/src/storage/sled_store.rs:280-293 | The balance cut off at the largest u64, in whatever order the outputs come |
| SledStores.SledStore.AllActive | crates/bcc-node/src/storage/sled_store.rs:332-347 | The active validators in key order |
| SledStores.SledStore.Upsert | crates/bcc-node/src/storage/sled_store.rs:349-366 | A validator is filed exactly when its address derives from its key, which keeps the registry keyed by address |
| Durability.ExtendStored | crates/bcc-node/src/storage/sled_store.rs:122-217 | Insert and apply take the stored state of any chain to that of the longer one, in every tree |
| Durability.RollbackStored | crates/bcc-node/src/storage/sled_store.rs:221-278 | Rolling the tip of any numbered chain back restores the parent's state in every tree but for the coins that are lost; all of it if and only if none is |
| Durability.ReorgStored | crates/bcc-node/src/state.rs:61-70 | A reorg leaves the state of a node that saw only the new block if and only if the new block makes up for what is lost with the old one |
| Durability.ExtendWriteByWrite | crates/bcc-node/src/storage/sled_store.rs:122-217 | The four durable writes of storing a block: block, index and tip come with the first, the coins with the third; the sentinel names the height after the second and third only |
| Durability.RollbackWriteByWrite | crates/bcc-node/src/storage/sled_store.rs:221-278 | The two of undoing the tip: the coins drop back first, then block, index entry and tip go |
| Durability.ReorgWriteByWrite | crates/bcc-node/src/state.rs:61-70 | The six of a reorg: the new block stands after the third, with the coins that undoing the old one left until the fifth |
| Durability.ExtendCrash | crates/bcc-node/src/storage/sled_store.rs:122-217 | After any prefix of the four writes of an accept or proposal the coins are the replay of the stored chain, with or without its tip, whatever the block |
| Durability.RollbackCrash | crates/bcc-node/src/storage/sled_store.rs:221-278 | The same after each of the two writes of a rollback if and only if nothing is lost |
| Durability.ReorgCrash | crates/bcc-node/src/state.rs:66-68 | The same after each of the six writes of a reorg if and only if nothing is lost with the old tip; making up for it comes too late |
| Durability.SentinelIsNoEvidence | crates/bcc-node/src/storage/sled_store.rs:171-217 | The coins can lag without the sentinel and be complete with it |
| Durability.LagShowsInOutputs | crates/bcc-node/src/storage/sled_store.rs:171-217 | With transactions in the tip, the coins are complete exactly when all its outputs are there |
| Durability.ReapplyingRepairs | crates/bcc-node/src/storage/sled_store.rs:171-217 | Applying the stored tip to a lagging state gives the stored chain's state |
| Durability.ReorgRepairs | crates/bcc-node/src/state.rs:61-70 | A reorg that replaces a tip whose coins were never applied leaves the state of the new chain if and only if the new block makes up for the outputs of the old one that were there before |
| Mempools.Mempool.Add | crates/bcc-node/src/mempool.rs:61-135 | Every outcome of an offer: known, invalid, double spend, stored, stored by evicting one whose output sum is least and less than the newcomer's, or refused at capacity; the value reported is the output sum modulo 2^64, and the three indexes stay in step |
| Mempools.Mempool.Remove | crates/bcc-node/src/mempool.rs:138-142 | Exactly the named transactions leave all three indexes |
| Mempools.Mempool.RemoveOne | crates/bcc-node/src/mempool.rs:162-169 | One transaction leaves, with its inputs and its value |
| Mempools.Mempool.Drain | crates/bcc-node/src/mempool.rs:148-160 | The transactions with the largest output sums (modulo 2^64), each once, in descending order, as many as asked for or all; the pool is unchanged |
| Mempools.ListedSorted | crates/bcc-node/src/mempool.rs:149-159 | Whatever order the index yields and the sort leaves, every prefix is a drain of the pool |
| TopK.AddKeepsTop | crates/bcc-node/src/mempool.rs:96-130 | One offer of a fresh valid transaction turns the largest k values into the largest k of one more |
| TopK.StreamIsTop | crates/bcc-node/src/mempool.rs:61-135 | After any sequence of valid offers with disjoint inputs the output sums of the pooled transactions, modulo 2^64, are the k largest offered |
| TopK.RichestStay | crates/bcc-node/src/mempool.rs:96-130 | Then no offer that is not in the pool has a larger output sum, modulo 2^64, than any transaction that is |
| TopK.TopUnique | crates/bcc-node/src/mempool.rs:99-123 | There is only one multiset of k largest values, so arrival order and ties do not matter |
| Nodes.Node.ApplyGenesis | crates/bcc-node/src/genesis.rs:67-127 | Nothing changes if a block 0 exists or an account does not decode; otherwise the allocation block and the validators up to the first that does not decode or match, and every durable write on the way |
| Nodes.Node.OnNewBlock | crates/bcc-node/src/p2p/handler.rs:156-323 | The judgement of an arriving block, the state and pool after it, and every durable write on the way |
| Runs.JudgeByHeight | crates/bcc-node/src/p2p/handler.rs:163-323 | On any linked stored chain: a block is known if and only if it is on the chain; any other is asked after, from the first height not stored, if and only if it is above the next height; it is accepted, replaces the tip or is stale under exact conditions on height, hash and check |
| Runs.JudgeRefuses | crates/bcc-node/src/p2p/handler.rs:176-286 | Which of the other answers the rest get: rejected with the check's error, kept out by the hash, or on a different parent |
| Runs.JudgeWithoutGenesis | crates/bcc-node/src/p2p/handler.rs:163-323 | A node without a genesis block takes no block; above height 1 it asks from height 1 |
| Runs.PoolLoses | crates/bcc-node/src/p2p/handler.rs:202-323 | When a block is stored exactly its transactions leave the pool, and otherwise none |
| Nodes.Node.OnNewTx | crates/bcc-node/src/p2p/handler.rs:325-358 | The pool's answer; passed on exactly when the transaction was not pooled and now is |
| Nodes.Node.OnGetBlocks | crates/bcc-node/src/p2p/handler.rs:360-367 | The stored blocks from the height asked for, at most 256 |
| Nodes.Node.ReorgBlock | crates/bcc-node/src/state.rs:61-70 | Roll back, insert, apply: the state and the six durable writes |
| Nodes.Node.Tick | crates/bcc-node/src/slot_ticker.rs:50-131 | Whether this node proposes in this slot, and the state, pool and writes if it does |
| Nodes.Node.ProposeBlock | crates/bcc-node/src/slot_ticker.rs:140-204 | A signed block over the most valuable pooled transactions on the tip, stored, applied and taken out of the pool |
| Proposals.EarlierSlotEnds | crates/bcc-node/src/slot_ticker.rs:55-58 | An earlier slot ends no later than now, casts and unchecked products included |
| Proposals.ProposesIff | crates/bcc-node/src/slot_ticker.rs:50-131 | A node proposes if and only if the end of the present slot fits the clock and is more than a second off, there is a tip, of an earlier slot if stored, and this node is the one elected on it; the slot is the one that holds the present second |
| Proposals.ProposedHeaderIs | crates/bcc-node/src/slot_ticker.rs:54-175 | On any chain, valid or not, the header of a proposal passes unless the parent is dated later |
| Proposals.ProposedHeaderPasses | crates/bcc-node/src/slot_ticker.rs:54-129 | Every header check passes on the parent, except the timestamp on a genesis block dated later, with no monotone clock |
| Proposals.ProposedBlockPasses | crates/bcc-node/src/slot_ticker.rs:148-175 | A proposed block is valid if and only if its transactions are (and a genesis parent is not dated later) |
| Proposals.SoleValidatorProposes | crates/bcc-node/src/slot_ticker.rs:54-129 | The only active validator proposes in every slot that the tip does not cover and that has more than a second left |
| Runs.ReorgedExtendsParent | crates/bcc-node/src/p2p/handler.rs:234-286 | A rival that replaces the tip is an accepted block on the parent, with a lower hash than the tip |
| Runs.RivalNeedsParent | crates/bcc-node/src/p2p/handler.rs:246-286 | On any linked chain and any coins a rival that replaces the tip has the tip's height and parent and a lower hash, and the genesis block is never replaced |
| Runs.TakeBlock | crates/bcc-node/src/p2p/handler.rs:156-323 | Handling an arriving block is a step of a run, with that step's durable writes |
| Runs.TakeTx | crates/bcc-node/src/p2p/handler.rs:325-358 | Handling an arriving transaction is a step of a run, without durable writes |
| Runs.TakeSlot | crates/bcc-node/src/slot_ticker.rs:50-204 | A slot of the ticker is a step of a run, with that step's durable writes |
| Runs.StepShapes | crates/bcc-node/src/p2p/handler.rs:156-323 | Any step, with whatever block it brings, leaves a linked chain with its height map, index and tip record: the same chain, one block more, or a tip of lower hash |
| Runs.RunIsShaped | crates/bcc-node/src/storage/sled_store.rs:122-137 | In every state of every run heights count from zero, blocks name their parents, and height map, hash index and tip record are those of the stored chain |
| Runs.RunDescends | crates/bcc-node/src/p2p/handler.rs:176-286 | Between any two moments of any run, whatever blocks it stores, the height does not fall, blocks below the tip do not change, the genesis block stays, and the block at the old tip's height is the same or has a lower hash |
| Runs.ReorgedReplays | crates/bcc-node/src/p2p/handler.rs:225-286 | On any linked chain, valid or not, a reorg leaves the replay of the blocks it stores if and only if the rival makes up for what undoing the tip loses |
| Runs.StepReplays | crates/bcc-node/src/storage/sled_store.rs:122-278 | From a state that is the replay of its blocks every step leads to another, except exactly a reorg that does not make up for what it loses |
| Runs.RunReplays | crates/bcc-node/src/storage/sled_store.rs:122-278 | All states of a run are the replay of their stored blocks, coins and spent records, if and only if every reorg in it makes up for what it loses |
| Runs.FreshRunReplays | crates/bcc-node/src/storage/sled_store.rs:187-210 | They are if every block stored makes outputs that are new to the coins it is applied to; nothing is asked of validity, sums, rivals or clocks |
| Runs.ReorgMints | crates/bcc-node/src/p2p/handler.rs:225-286 | A reorg raises the total above outputs minus inputs by exactly what the rival takes of the old tip's outputs, so not at all if and only if it takes none |
| Runs.StepKeeps | crates/bcc-node/src/p2p/handler.rs:156-323 | Every careful step leaves a valid chain, its exact state, and a pool without any transaction of the chain |
| Runs.RunIsSound | crates/bcc-node/src/storage/sled_store.rs:122-278 | In every state of a careful run the stored chain is valid, the state is its replay, and nothing pooled is on it |
| Runs.RunConserves | crates/bcc-node/src/storage/sled_store.rs:280-293 | Whatever arrived and was turned away, while the stored blocks have distinct inputs the total never exceeds the genesis total, reorgs included; the balances add up to it, and with a genesis total below 2^64 none saturates |
| Runs.RunStaysDistinct | crates/bcc-node/src/p2p/handler.rs:156-323 | In any run the stored blocks have distinct inputs throughout if every block that gets stored does |
| Runs.StepIsDurable | crates/bcc-node/src/p2p/handler.rs:202-286 | After any prefix of the durable writes of a step the coins are the replay of the stored chain, with or without its tip, if and only if the step is no reorg that loses something |
| Runs.RunIsDurable | crates/bcc-node/src/p2p/handler.rs:202-286 | All durable states of a run are so if and only if no reorg of the run loses anything |
| Runs.CarefulIsDurable | crates/bcc-node/src/p2p/handler.rs:202-286 | In a careful step they are, and the chain stored after each write is valid |
| Genesis.GenesisIsSound | crates/bcc-node/src/genesis.rs:67-127 | Applying genesis to empty stores gives a sound state whose chain is the genesis block |
| Genesis.GenesisMints | crates/bcc-node/src/genesis.rs:85-101 | Every balance is minted if and only if no account entry is repeated |
| Genesis.AccountsFunded | crates/bcc-node/src/genesis.rs:85-101 | Each account's allocation is an unspent output of its balance at its address |
| Genesis.EntriesFunded | crates/bcc-node/src/genesis.rs:85-101 | So it is for every account entry of the file after genesis on empty stores |
| Genesis.GenesisHashBinds | crates/bcc-node/src/genesis.rs:135-154 | Two genesis blocks have one hash if and only if they have one timestamp, whatever their accounts |
| Genesis.LastEntryFiled | crates/bcc-node/src/genesis.rs:103-120 | Every validator entry before the first bad one is filed with its key and stake, active since slot 0, unless a later one of them has the same address |
| Genesis.OthersUntouched | crates/bcc-node/src/genesis.rs:103-120 | An address that none of those entries has is filed as before |
| Genesis.RestartCompletes | crates/bcc-node/src/genesis.rs:67-127 | After a crash between durable writes of genesis, starting again completes it if and only if nothing was written, or the block was applied or empty and the validators filed already make up the registry |
| Genesis.NeverMadeGood | crates/bcc-node/src/genesis.rs:67-127 | With an entry, and validators that are distinct and well-formed, that is if and only if nothing or everything was written |
| Genesis.StartTwice | crates/bcc-node/src/genesis.rs:74-127 | A start that fails at a validator is followed by one that succeeds and leaves the registry cut short; one that fails at an account writes nothing and fails again |
| Scenario.ReorgRun | crates/bcc-node/src/p2p/handler.rs:225-286 | For any lone validator with two different accounts: genesis, pooling a payment, a proposal and a reorg form a run that meets every condition of the run theorems |
| Scenario.ReorgRunExists | crates/bcc-node/src/p2p/handler.rs:225-286 | Such a run exists, so those conditions can be met together |
| Counterexamples.AcceptedOverflow | crates/bcc-core/src/validation/transaction.rs:94-101 | A block that passes on the genesis block with one transaction that has no input adds 2^64 to the total |
| Counterexamples.AcceptedDoubleSpend | crates/bcc-core/src/validation/block.rs:109-113 | A block accepted on the genesis block that pays the first account's output twice adds its balance to the total |
| Counterexamples.DoubleSpendExists | crates/bcc-core/src/validation/block.rs:109-113 | Such a chain and block exist |
| Counterexamples.MintingReorg | crates/bcc-node/src/p2p/handler.rs:225-286 | A rival with a lower hash that spends the tip's output replaces the tip and leaves the first account's balance more than there was |
| Counterexamples.MintingRun | crates/bcc-node/src/p2p/handler.rs:225-286 | From genesis through a pooled payment and its proposal to that reorg: every step but the last is careful, and the total ends above the genesis total |
| Counterexamples.MintingRunExists | crates/bcc-node/src/p2p/handler.rs:225-286 | Such a run exists |
| Counterexamples.RefusedProposal | crates/bcc-node/src/slot_ticker.rs:148-175 | With a stale transaction in the pool the node's turn comes and the block it builds fails its own validation |
| Counterexamples.StaleRun | crates/bcc-node/src/slot_ticker.rs:148-204 | From genesis through a pooled payment and a conflicting block to the proposal of that payment: every step but the last is careful, and the stored proposal is invalid |
| Counterexamples.StaleRunExists | crates/bcc-node/src/slot_ticker.rs:148-204 | Such a run exists |
| Resurrection.TakesAway | crates/bcc-node/src/p2p/handler.rs:225-286 | Displacing a block that made an existing output once more by an empty one takes that output from the coins, though the stored chain still has it |
| Resurrection.ResurrectionRun | crates/bcc-node/src/p2p/handler.rs:225-286 | From genesis through a minting reorg, the payment and the spender once more, to a reorg that is careful in itself: the coins end without an output that the stored chain made and does not spend |
| Resurrection.ResurrectionRunExists | crates/bcc-node/src/p2p/handler.rs:225-286 | Such a run exists |
| ForkChoice.HashDeterminesRival | crates/bcc-core/src/types/block.rs:38-42 | The header hash determines a block that passes on the parent and repeats no transaction, its body included |
| ForkChoice.TwinsStoreAlike | crates/bcc-core/src/types/block.rs:46-71 | Two rivals with one header hash, padded or not, leave the same coins, records, index and tip, and differ at most in how often a transaction is listed |
| ForkChoice.JudgeAgainstTip | crates/bcc-node/src/p2p/handler.rs:234-286 | Of two blocks that pass on one parent and make new outputs the later one replaces the tip if and only if its hash is lower and it shares no input with the tip |
| ForkChoice.JudgeBeside | crates/bcc-node/src/p2p/handler.rs:234-286 | Any block next to any tip, valid or not, over any coins, is kept out by a hash that is not lower and otherwise judged by its check on the coins above the tip |
| ForkChoice.DeliveryEnds | crates/bcc-node/src/p2p/handler.rs:163-286 | Any sequence of rivals on one linked chain ends with one of them as tip, in the state of its chain; one with the best hash if that one beats all others |
| ForkChoice.ConfluentIffDisjoint | crates/bcc-node/src/p2p/handler.rs:229-286 | Every order of delivery, with any repeats, ends in the state of the lowest-hash rival, up to repeated transactions in its body, if and only if that rival shares no input with the others |
| ForkChoice.NodesAgree | crates/bcc-node/src/p2p/handler.rs:229-286 | Then two nodes that saw the same rivals hold the same coins, records, index and tip, and the very same state if no rival repeats a transaction |
| Ibd.ApplyBatch | crates/bcc-node/src/ibd.rs:148-170 | Blocks are checked and stored one by one until the first that fails |
| Ibd.BatchOfPeer | crates/bcc-node/src/ibd.rs:148-170 | A stretch of a peer's chain is stored up to its first invalid block exactly, and fails if and only if there is one |
| Ibd.GapFails | crates/bcc-node/src/ibd.rs:148-170 | An answer that begins above the next height fails at once with the parent height it lacks, and nothing is stored |
| Ibd.GenesisUnchecked | crates/bcc-node/src/ibd.rs:148-170 | A block at height 0 in an answer is stored without any check in place of the genesis block, and the tip record follows it |
| Ibd.AnsweredTwice | crates/bcc-node/src/ibd.rs:141-170 | A second answer with blocks stored already does nothing if they have no transactions; otherwise it fails at the first that has some, and the tip record stays at the block before it |
| Ibd.HandleReply | crates/bcc-node/src/ibd.rs:141-181 | What one reply makes of the store, the next height and the outcome, whatever blocks it brings |
| Ibd.React | crates/bcc-node/src/ibd.rs:87-184 | What one reaction to a request makes of the session: leave for the next peer, end the download, or go on |
| Ibd.RunSession | crates/bcc-node/src/ibd.rs:87-184 | One connection over any script of timeouts, errors, unexpected messages and answers |
| Ibd.RunIbd | crates/bcc-node/src/ibd.rs:30-188 | The whole download over any script of connections computes its step-by-step specification: peers in order, retries, verdicts and the store |
| Downloads.AnyPeersDownload | crates/bcc-node/src/ibd.rs:30-188 | Whatever chains the peers have, even changing ones: as long as answers start where they were asked to, the store is that of a valid chain that extends what we held, and a failure names the height after it |
| Downloads.OneChainDownload | crates/bcc-node/src/ibd.rs:30-188 | With peers that store one chain, valid or not: in sync means all of it, a failure exactly the blocks before the first invalid one, anything else a full request's worth for each answer; and a connection that answers often enough, after any refused or broken ones that leave a peer to try, settles it |
| Downloads.SessionLeft | crates/bcc-node/src/ibd.rs:87-140 | A connection is left for the next peer if and only if an error or a third timeout in a row comes before anything ends the download |
| Downloads.TimeoutsCarryOver | crates/bcc-node/src/ibd.rs:47-140 | Timeouts before a peer hangs up count against the next peer; a new round starts from none |
| Downloads.GivesUp | crates/bcc-node/src/ibd.rs:50-75 | When no attempt gets anything the download gives up after exactly the attempts left: the rest of the round, and five more rounds only while nothing has been stored |
| Downloads.LateAnswer | crates/bcc-node/src/ibd.rs:141-170 | A second answer with blocks stored already goes unnoticed if they have no transactions; otherwise the download fails at the first that has some, and the tip record stays at the block before it |
| Wallet.SelectCoins | crates/bcc-client/src/wallet.rs:31-48 | Succeeds exactly when there are coins and they cover the target; the selection is the smallest coins, as many as it takes, and as long as any cover without a redundant coin |
| Wallet.SmallestAreLeast | crates/bcc-client/src/wallet.rs:32-33 | As many coins as any selection has, taken from the small end, are worth no more |
| Wallet.NoLongerCover | crates/bcc-client/src/wallet.rs:38-44 | A cover longer than the smallest coins that reach the target has a redundant coin |
| Wallet.WastelessIff | crates/bcc-client/src/wallet.rs:38-44 | A selection has no redundant coin if and only if it falls short without its smallest |
| Wallet.LargestAreMost | crates/bcc-client/src/wallet.rs:32-33 | As many coins as any selection has, taken from the large end, are worth at least as much |
| Wallet.MinimalIff | crates/bcc-client/src/wallet.rs:22-48 | The selection of k coins has no redundant coin if and only if it falls short without the smallest, and no cover has fewer coins if and only if the k - 1 largest coins fall short |
| Wallet.SelectionWastes | crates/bcc-client/src/wallet.rs:22-48 | Coins 1 and 10 for a target of 10: both are selected and the smaller is redundant |
| Wallet.BuildTransfer | crates/bcc-client/src/wallet.rs:84-133 | A transfer of exactly those coins, every input signed: the amount to the recipient first, and what is left, if anything, to the change address; or the first undecodable hash |
| Wallet.TransferBalances | crates/bcc-client/src/wallet.rs:89-106 | Outputs add up to the coins spent, unless the coins fall short of the amount |
| Wallet.TransferValid | crates/bcc-client/src/wallet.rs:84-133 | On unspent outputs that hold the coins the transfer is valid if and only if it pays a positive amount the coins cover |
| Wallet.TransferPays | crates/bcc-client/src/wallet.rs:95-106 | Once applied, a transfer of distinct coins takes what they are worth from the payer's balance, adds the amount to the recipient's and the rest to that of the change address, and leaves every other balance alone |
| Split.BuildSplits | crates/bcc-client/src/split.rs:48-67 | One round: too small coins kept, each other coin replaced by the two outputs of its transfer; fails exactly when a hash does not decode |
| Split.SplitUtxo | crates/bcc-client/src/split.rs:32-110 | The loop ends, with the result of the recursive specification, refusals and confirmation timeouts of the network included |
| Split.SplitOverIs | crates/bcc-client/src/split.rs:78-105 | The call succeeds if and only if the network takes and confirms every round there is, and then with the coins of the undisturbed run |
| Split.RoundShape | crates/bcc-client/src/split.rs:45-107 | A round adds one coin for each one split and changes no total |
| Split.SplitKeepsSum | crates/bcc-client/src/split.rs:45-110 | The resulting amounts add up to the input |
| Split.SplitReachesTarget | crates/bcc-client/src/split.rs:16-31 | With an amount of at least 2^c, c the logarithm of the target rounded up, exactly the target count after c rounds, each amount between the floor of amount / 2^c and the ceiling of amount / 2^(c - 1) |
| Split.TargetNeedsUnits | crates/bcc-client/src/split.rs:55-71 | A target beyond the amount is never reached |
| Split.PowerOfTwoTarget | crates/bcc-client/src/split.rs:32-110 | A power of two is reached if and only if the amount is at least that |
| Split.OneMoreThanPower | crates/bcc-client/src/split.rs:32-110 | One coin more than 2^k is reached if and only if the amount is at least 2^(k + 1) |
| Split.StopsShort | crates/bcc-client/src/split.rs:45-76 | Three units asked into three coins stay two |
| Split.HalvesAreCreated | crates/bcc-client/src/split.rs:63-70 | The transfer that halves a coin is valid and its outputs are the recorded coins |
| Calendar.EpochToYmd | crates/bcc-node/src/debug_event.rs:126-145 | The loops end in a valid Gregorian date whose day number, in closed form for years and months, is the given one |
| Calendar.MonthsAddUp | crates/bcc-node/src/debug_event.rs:137-144 | The month lengths the loop subtracts add up to 31 days before February, and from March on to 59, a leap day, and (153 (m - 3) + 2) / 5 |
| Calendar.DayNumberMonotone | crates/bcc-node/src/debug_event.rs:126-145 | Day numbers follow the order of dates |
| Calendar.DayNumberUnique | crates/bcc-node/src/debug_event.rs:126-145 | No two dates share a day number, so the date is the only one |
| Calendar.SplitTimestamp | crates/bcc-node/src/debug_event.rs:112-122 | The fields recompose to the input milliseconds if and only if the day number fits in 32 bits |
| Calendar.TextReadsBack | crates/bcc-node/src/debug_event.rs:123 | The text has the 24 characters of section 5.6 of RFC 3339 exactly while the year has four digits, and then reads back as the fields |
| Calendar.TextIsDateTime | crates/bcc-node/src/debug_event.rs:123 | Exactly while the year has four digits the text is a date-time in the form of section 5.6 of RFC 3339: digits in the fixed places, the separators between them, Z at the end |
| Calendar.FormatTs | crates/bcc-node/src/debug_event.rs:112-124 | The text is a date-time of 24 characters exactly while the day, cut to 32 bits, falls before the year 10000, and then reads back as that day and time of day |
| Calendar.FourDigitYears | crates/bcc-node/src/debug_event.rs:123 | Four-digit years are the first 2932897 days |

## Left out

- Runs.RunIsSound: requires of accepted and proposed blocks what the code does not check (see above); what holds without that is `RunIsShaped`, `RunDescends` and `RunReplays`.
- Split.SplitReachesTarget: one direction only for targets other than 2^k and 2^k + 1; between the two thresholds the outcome is not monotone in the amount. `TargetNeedsUnits` bounds it from the other side.
- ForkChoice.ConfluentIffDisjoint: a rival that makes an output once more that the parent chain still has is not among the rivals; undoing it loses that output.
- Downloads.AnyPeersDownload: answers that do not start where they were asked to are not covered; `LateAnswer` is what a repeated one does.
- A slot length above the largest `i64`.
- Interleaving of steps on different threads, channels, reconnecting, the peer registry and message framing: arrival of a message is one atomic step.
- The HTTP interface, the debug event stream, the visualizer and its scenarios, and `list_utxos`, which only they use.
- Key files, command line and configuration loading; of the configuration only the slot length, the node's key and address, and the pool's capacity appear.
- Stake and unstake transactions beyond their kind being signed and hashed: no code acts on them.
- Catching up from `Blocks` replies outside the initial download, reorgs deeper than one block, and recovery at startup: the code has none.
- The in-memory store as a node's store: it is proved against its own specification and compared with the persistent store, but runs use the persistent store. Its block and index maps keep a rolled-back block, as in the code.
