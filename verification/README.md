# Verified model of the Fraxtal block executor

The project models two parts of the Fraxtal OP execution client and proves properties of them in
Dafny.

**Hardfork migrations.** At a fork boundary (Canyon, Granite, Holocene, Isthmus) the client
rewrites world state directly: it moves a contract's code to a derived implementation address,
possibly patching it, replaces the contract's own code by shared proxy code, and writes the admin
and implementation slots of EIP-1967 ("Admin address", "Logic contract address"); Holocene also
rewrites names in bytecode and storage. The code is a sequence of loops that load, modify and
commit. The proofs show that these loops mean one simultaneous transformation, that no fork undoes
another, when the time gate runs each migration, and what goes wrong when it runs one twice.

**Block accounting.** The executor checks a transaction against the gas and data-availability
footprint left in the block, runs it, and commits the result. It mixes unchecked and saturating
64-bit arithmetic. The proofs show over whole runs that the totals stay within the limit and are
exact sums, what receipts and the finished block report, and exactly where these guarantees end.

## How the model is built

- `Primitives`, `ByteCodec`: integers and their wrapping and saturating operators, big-endian
  encodings, derived addresses, splicing of bytes.
- `StateDb`, `Utils`: a world of accounts, slots and stored codes; the mutable `Database` class with
  reads that may fail and a ghost set of loaded addresses, which `Commit` requires; the two lookups.
- `Transitions`, `Simultaneity`, `LostLookups`, `Commutation`: the items an irregular state transition
  consists of, running them against a database whose reads fail at arbitrary points, and the theorems
  that items which do not interfere act at once, with or without failing reads, and that lists which
  do not interfere commute.
- `Hardforks`, `ForkGate`: fork activation and how often the gate opens over a chain.
- `Canyon`, `Granite`, `Holocene`, `Isthmus` with `ProxyMigration` and `HoloceneConstants`: the
  migrations as methods over the database, each proved to run its list of items.
- `ProxyLaws`, `NamingLaws`, `ForkTables`: what the lists mean, in general and for the repository's
  constants.
- `PreExecution`, `ForkOutcomes`, `StoppedSteps`: all forks in one block; what each leaves in the
  world, contract by contract and chain by chain; and how a step that stops has left it.
- `TableRounds`, `ChainMigration`: one fork's table several times in a row, and a chain of blocks with
  transactions in between.
- `ExecutorModel`, `Executor`, `ExecutorRuns`, `BlockRules`, `PendingResults`: the accounting as
  functions on a ledger, the class that computes them, the laws of whole runs, the rules of a block
  read off transactions and fork times, and what happens when results are committed later than they
  are executed.

The hash function, the EVM, the compressed-size estimate, the scalar of the L1 block contract,
the diffs of the system calls and of the balance increments, and whether the state hook can be told
of the latter are parameters. A run of the database is described by the set of reads that fail, so
every statement about failures covers any pattern of them. A slice out of range, which panics in the
client, is an outcome of its own. Unchecked `+` and `-` wrap, as in a release build.

Assumed of libraries: `commit` replaces the info of every touched account and lays its slots over
the stored ones, also when a value is zero; an absent account reads as the default one; stored codes
are not changed by a commit; receipts are built by the receipt builder for every type but deposits;
the EVM, the system calls and the balance increments load the accounts of their diffs.

Results about the code that its comments do not mention:

- A failing code lookup during a migration is swallowed, and the contract then loses its logic
  although the migration succeeds (`PreExecution.PreExecutionIsSimultaneous`,
  `ProxyLaws.LostLogicExists`).
- The gate is right for every fork only if the parent block is exactly two seconds older
  (`ForkGate.GateAgreesWithParent`, `ForkGate.GapsMatter`).
- Blocks at a fork's time and one second later run its migration twice, which with no lookup lost is
  the one way an upgraded contract loses its logic (`ChainMigration.LogicKeptIff`,
  `ChainMigration.TokenLosesLogic`).
- Before Regolith a deposit can take the gas total past the block limit and reopen a full block
  (`ExecutorRuns.BooksKeptIff`, `ExecutorRuns.DepositReopensBlock`).
- Two results executed before either is committed can take either total past the limit
  (`PendingResults.TwoPendingBreak`, `PendingResults.TwoPendingFootprintsBreak`).

## Model

| member | source | states |
|---|---|---|
| ByteCodec.AddressWordDecodes | crates/op-evm/src/block/holocene/mod.rs:78-87 | the word written to the implementation slot (left-padded, big-endian) is the address, and its low 160 bits decode back to it |
| ByteCodec.ImplementationAddressArithmetic | crates/op-evm/src/block/holocene/mod.rs:45-46 | overwriting the first three address bytes gives the prefix followed by the last 17 bytes of the address |
| ByteCodec.ImplementationAddressLaws | crates/op-evm/src/block/holocene/mod.rs:45-46 | the derived-address map is idempotent, fixes exactly the addresses with the prefix, and identifies two addresses exactly when their last 17 bytes agree |
| ByteCodec.SpliceAllPointwise | crates/op-evm/src/block/granite.rs:154-156 | whatever the overlaps, each byte after the patch loop comes from the last window covering it |
| ByteCodec.SpliceAllIsOverlay | crates/op-evm/src/block/granite.rs:154-156 | for disjoint windows the loop is a simultaneous overlay: the token in every window, the original bytes elsewhere, the same length |
| ByteCodec.SpliceAllAnyOrder | crates/op-evm/src/block/granite.rs:154-156 | the order of disjoint offsets does not matter |
| ByteCodec.SpliceAllIdempotent | crates/op-evm/src/block/granite.rs:154-156 | patching again changes nothing, for any in-range offsets |
| Utils.LoadContractAccount | crates/op-evm/src/block/utils.rs:4-11 | one database read; a missing account is the default account; a failing read is reported |
| Utils.GetContractCode | crates/op-evm/src/block/utils.rs:14-24 | inline code, or the code stored under the hash; a failing lookup is swallowed and yields empty code |
| StateDb.Database.Commit | crates/op-evm/src/block/granite.rs:201-204 | touched accounts and their slots replace the stored ones; the precondition makes every migration load an account before it commits to it |
| Transitions.EffectCells | crates/op-evm/src/block/granite.rs:158-204 | cell by cell, what one committed item leaves in codes, nonces, balances and slots |
| Transitions.RunAppend | crates/op-evm/src/block/mod.rs:197-210 | migrations run one after the other, and a failure ends the step |
| Transitions.FailureKeepsPrefix | crates/op-evm/src/block/holocene/mod.rs:49-92 | a run that stops midway leaves the world of exactly the items completed before it, never half an item |
| Transitions.DoneIsExact | crates/op-evm/src/block/holocene/mod.rs:49-128 | whatever account reads may fail, a run that reports success with no code lookup lost has carried out every item in full |
| Transitions.FaultFreeRun | crates/op-evm/src/block/holocene/mod.rs:43-130 | without failing reads a run succeeds exactly when every patched range is in bounds, and then carries out every item |
| Transitions.RunKeepsCoherence | crates/op-evm/src/block/holocene/mod.rs:49-62 | every account's effective code keeps hashing to its code hash through any list of items, wherever it stops and whatever reads fail, even when only the hash of the proxy's code is copied |
| Transitions.PerformedLocal | crates/op-evm/src/block/granite.rs:145-168 | what an item writes depends only on the codes it reads |
| Transitions.PerformedFrame | crates/op-evm/src/block/granite.rs:170-204 | an item changes no other cell: nonces, balances, other slots and other accounts are kept |
| Simultaneity.SequentialIsSimultaneous | crates/op-evm/src/block/holocene/mod.rs:43-130 | items that do not interfere, carried out one after the other, give every written cell the value that item alone makes of the original world, and change no other cell |
| Simultaneity.OrderDoesNotMatter | crates/op-evm/src/block/mod.rs:197-210 | any permutation of such items leads to the same world |
| Simultaneity.IndependentFit | crates/op-evm/src/block/mod.rs:197-210 | independent items fit one after the other if and only if each fits the original world |
| Simultaneity.RunFrame | crates/op-evm/src/block/utils.rs:4-24 | whatever reads fail and wherever a run stops, it changes no cell that none of its items writes |
| LostLookups.RunIsSimultaneous | crates/op-evm/src/block/holocene/mod.rs:43-130 | whatever reads fail: a run of independent items gets through if and only if each item does so alone, started on the original world at its own place among the reads, and then every written cell is what that item makes of the original world with the code it has seen (nothing, exactly if its own lookup failed) and every other cell is kept |
| LostLookups.RunsAloneIff | crates/op-evm/src/block/holocene/mod.rs:49-69 | an item gets through if and only if the accounts it loads can be read and its patch lies within the code it has seen; a lookup by hash that fails does not stop it |
| LostLookups.WhereAnItemStops | crates/op-evm/src/block/granite.rs:143-168 | which stop is a slice out of range and which a failed read, and that a stopped item has changed nothing |
| LostLookups.LostRun | crates/op-evm/src/block/utils.rs:14-24 | cell by cell, losing code lookups is the same as running without failures on a world in which the codes looked up are empty |
| Commutation.IndependentListsCommute | crates/op-evm/src/block/holocene/mod.rs:43-130 | two lists of items that do not interfere with each other commute, whatever interference there is inside each list: either order fits or neither does, and both lead to the same world |
| ForkGate.GateWindow | crates/op-evm/src/block/holocene/mod.rs:27-28 | the gate is open exactly for F >= 1 and F <= t < F + 2 |
| ForkGate.GateAgreesWithParent | crates/op-evm/src/block/canyon.rs:29-33 | the gate agrees with the real transition from the parent block, for every fork, if and only if the parent is two seconds older |
| ForkGate.FiringsExactly | crates/op-evm/src/block/granite.rs:53-54 | over strictly increasing timestamps the gate opens once for a block at F and once for a block at F + 1, and never otherwise |
| ForkGate.FiringsAtMost | crates/op-evm/src/block/isthmus/mod.rs:27-28 | at most twice for strictly increasing timestamps, at most once for gaps of at least two |
| ForkGate.FiresAtLeastOnce | crates/op-evm/src/block/holocene/mod.rs:27-28 | at least once when gaps are at most two and the chain crosses the fork time |
| ForkGate.FiresExactlyOnce | crates/op-evm/src/block/canyon.rs:32-33 | exactly once at a spacing of two seconds |
| ForkGate.FiresOnceIff | crates/op-evm/src/block/canyon.rs:29-33 | at a spacing of two seconds, for every fork and chain, exactly which chains fire: those with a block at or past the fork time whose first block is not two seconds past it |
| ForkGate.FiresTwiceIff | crates/op-evm/src/block/holocene/mod.rs:27-28 | over strictly increasing timestamps the gate opens twice if and only if F and F + 1 are both block times |
| ForkGate.GenesisForkNeverFires | crates/op-evm/src/block/granite.rs:53-54 | never for a fork active from genesis or not scheduled |
| ForkGate.GapsMatter | crates/op-evm/src/block/canyon.rs:29-33 | concrete chains in which a three-second gap misses the fork and one-second blocks fire it twice |
| Canyon.EnsureCreate2Deployer | crates/op-evm/src/block/canyon.rs:21-52 | under the gate, the create2 deployer gets the given code and hash and nothing else changes; a failing read leaves the world as it was |
| Granite.ReplaceL1Token | crates/op-evm/src/block/granite.rs:147-156 | in-place patching of the moved code at every offset; out of range exactly when some window does not fit |
| Granite.Migrate | crates/op-evm/src/block/granite.rs:129-207 | the upgrade of one contract as one item: reads, patch, panic and failure points, joint commit of implementation and proxy, four slots |
| Granite.MigrateFrxusd | crates/op-evm/src/block/granite.rs:45-126 | gate, per-chain selection and the order of the migrations |
| Holocene.UpgradeToken | crates/op-evm/src/block/holocene/mod.rs:45-92 | one iteration of the proxy loop as one item |
| Holocene.UpgradeTokens | crates/op-evm/src/block/holocene/mod.rs:43-94 | the proxy loop runs the listed upgrades in order and stops at the first failure |
| Holocene.PatchBytecode | crates/op-evm/src/block/holocene/mod.rs:97-112 | one bytecode record: code spliced in place, hash recomputed, out-of-range slice panics |
| Holocene.PatchBytecodes | crates/op-evm/src/block/holocene/mod.rs:96-113 | the bytecode loop runs the records in order |
| Holocene.WriteSlot | crates/op-evm/src/block/holocene/mod.rs:116-129 | one storage record: the slot is written, the account re-committed as loaded |
| Holocene.WriteSlots | crates/op-evm/src/block/holocene/mod.rs:115-130 | the storage loop runs the records in order |
| Holocene.MigrateFraxHolocene | crates/op-evm/src/block/holocene/mod.rs:19-133 | gate, per-chain selection, and the three phases in order |
| Isthmus.UpgradeOracle | crates/op-evm/src/block/isthmus/mod.rs:37-84 | one iteration of the oracle loop, written out separately, as the same item |
| Isthmus.MigrateFraxIsthmus | crates/op-evm/src/block/isthmus/mod.rs:19-88 | gate, restriction to chain 252, and the loop over the oracles |
| ProxyLaws.ProxyLoopMigratesAll | crates/op-evm/src/block/holocene/mod.rs:43-94 | for any list with distinct 17-byte suffixes and no overlap with derived addresses or the proxy: every contract has the proxy's code, its derived address its original code, following the implementation slot reaches that code, nonces and balances are kept, and nothing else changes |
| ProxyLaws.UpgradedAmongOthers | crates/op-evm/src/block/granite.rs:158-204 | among independent items an upgrade leaves exactly its own result: admin and implementation slots, name and symbol, patched logic behind the proxy |
| ProxyLaws.SecondRunLosesLogic | crates/op-evm/src/block/holocene/mod.rs:45-92 | a second application makes every contract resolve to the proxy's own code |
| ProxyLaws.BodiesAgree | crates/op-evm/src/block/granite.rs:143-204 | the item the contract of `Granite.Migrate` names, without its offsets, name and symbol, acts on any database, whatever reads fail, like the item the contracts of `Holocene.UpgradeToken` and `Isthmus.UpgradeOracle` name; that the three bodies perform these items is what those contracts prove |
| ProxyLaws.GraniteExtendsStep | crates/op-evm/src/block/granite.rs:143-204 | in full, Granite's upgrade makes the same reads and stops at the same failures as one loop step, or because a window does not fit, and on success differs from it only in the patched copy of the code and the extra slots |
| ProxyLaws.SwallowedReadLosesLogic | crates/op-evm/src/block/utils.rs:18-21 | one upgrade that completes keeps the original logic unless its code lookup failed, in which case the logic is empty |
| ProxyLaws.LoopWithLostLookups | crates/op-evm/src/block/holocene/mod.rs:43-94 | a loop that completes, whatever reads failed, leaves each contract behind the proxy with no code exactly when its own lookup was lost, and with its original logic otherwise |
| ProxyLaws.LostLogicExists | crates/op-evm/src/block/utils.rs:14-24 | a concrete database in which an upgrade succeeds and the contract, which had code, answers with none |
| NamingLaws.LastWriteWins | crates/op-evm/src/block/holocene/mod.rs:115-130 | for any list of records each slot holds its last listed value; other slots and all account infos are kept |
| NamingLaws.WritesAreIdempotent | crates/op-evm/src/block/holocene/mod.rs:115-130 | running the storage phase again changes nothing |
| NamingLaws.DistinctWritesAnyOrder | crates/op-evm/src/block/holocene/mod.rs:115-130 | with no slot listed twice, any permutation of the records gives the same world |
| NamingLaws.LastPatchWins | crates/op-evm/src/block/holocene/mod.rs:96-113 | for any list of records that fits, each byte of code comes from the last record covering it, lengths are kept, hashes match, nothing else changes |
| NamingLaws.PatchesAreIdempotent | crates/op-evm/src/block/holocene/mod.rs:96-113 | running the bytecode phase again fits and changes nothing |
| NamingLaws.WritesCommuteWithPatches | crates/op-evm/src/block/holocene/mod.rs:96-130 | the storage and bytecode phases commute for any two lists of records |
| NamingLaws.WritesCommuteWithProxies | crates/op-evm/src/block/holocene/mod.rs:43-130 | the storage phase commutes with any proxy loop whose two slots it does not list |
| NamingLaws.PatchesCommuteWithProxies | crates/op-evm/src/block/holocene/mod.rs:43-113 | the bytecode phase commutes with any proxy loop that uses none of the patched accounts |
| ForkTables.MainnetRecords | crates/op-evm/src/block/holocene/constants.rs:160-571 | the storage records are 82, name every slot once and no upgraded contract |
| ForkTables.ContractsSeparate | crates/op-evm/src/block/holocene/constants.rs:3-31 | any stretch of the upgraded contracts satisfies the conditions of the proxy loop |
| ForkTables.ForksAreIndependent | crates/op-evm/src/block/mod.rs:197-210 | on every chain, whatever forks are taken together, no two of their items interfere |
| ForkTables.AnyForkOrder | crates/op-evm/src/block/mod.rs:197-210 | any order of all forks' items leads to the same world |
| ForkTables.GraniteFitsIff | crates/op-evm/src/block/granite.rs:35-41 | Granite's offsets are in range if and only if the two codes have the stated lengths |
| ForkTables.HoloceneFitsIff | crates/op-evm/src/block/holocene/constants.rs:46-158 | Holocene's table fits if and only if the chain is 2521 or 2522, or the 15 patched codes have at least 23825 bytes, the last two 18131 |
| ForkTables.NamingRecordsAreStrings | crates/op-evm/src/block/holocene/constants.rs:46-158 | every bytecode record is a length word, that many characters, and zeros |
| ForkTables.GraniteLogicCarriesToken | crates/op-evm/src/block/granite.rs:154-156 | with the repository's offsets the moved code has the L1 address in every window and the original bytes elsewhere |
| PreExecution.PreExecutionIsSimultaneous | crates/op-evm/src/block/mod.rs:186-213 | whatever forks activate in a block and whatever reads fail: the migrations succeed if and only if every account they load can be read and every patch fits the code it has seen, and they then act at once on the state before them; every upgraded contract resolves to its own original logic, or to none exactly if its code lookup was lost |
| Simultaneity.FundsKept | crates/op-evm/src/block/holocene/mod.rs:53-65 | no migration changes a nonce or a balance |
| PreExecution.PreExecutionKeepsCoherence | crates/op-evm/src/block/mod.rs:197-210 | the step keeps code and code hash in agreement, given that the create2 bytecode matches its constant |
| PreExecution.GraniteOutcome | crates/op-evm/src/block/granite.rs:56-119 | after the migrations of a block in which Granite fires, whatever other forks fire and whatever reads failed: names, symbols, admin and implementation slots and the proxy code are the listed ones, and the logic is the patched original one |
| ForkOutcomes.CanyonDeploys | crates/op-evm/src/block/canyon.rs:32-48 | when Canyon's two seconds have begun and the step succeeds, the deployer has the given bytecode and the fixed hash, and its funds |
| ForkOutcomes.GranitePatches | crates/op-evm/src/block/granite.rs:35-119 | chain by chain with its own offsets: the logic behind frax carries the L1 address of frxUSD, the one behind sfrax that of sfrxUSD, in every window, and the contract's own bytes elsewhere; names, symbols and slots; sfrax untouched on chain 2522 |
| ForkOutcomes.HoloceneOutcome | crates/op-evm/src/block/holocene/mod.rs:29-130 | exactly the tokens listed for the chain are proxies for their own code; every listed slot holds its value and every listed window its bytes, except on chains 2521 and 2522, where no listed name changes |
| ForkOutcomes.IsthmusOutcome | crates/op-evm/src/block/isthmus/mod.rs:30-84 | on chain 252 both oracles are proxies for their own code, or for none exactly if that lookup was lost |
| ForkOutcomes.IsthmusElsewhere | crates/op-evm/src/block/isthmus/mod.rs:30-32 | on every other chain no block touches an oracle, and a block in which only Isthmus fires does nothing at all |
| ForkOutcomes.OnlyTheseChange | crates/op-evm/src/block/mod.rs:197-210 | wherever the migrations of a block end and whatever reads fail, they change no cell but those of the forks, chains and contracts listed |
| StoppedSteps.StoppedStepIsInPhase | crates/op-evm/src/block/holocene/mod.rs:43-130 | a step that stops does so within one phase, in the order deployer, Granite's tokens, Holocene's tokens, bytecode, storage, oracles: every earlier phase is complete and no later one has begun |
| TableRounds.RoundsSettle | crates/op-evm/src/block/holocene/mod.rs:43-94 | a fork's table carried out n times in a row: when that fits, read off the first world, and that each contract then answers with its own patched code if n is one and with the proxy's patched code if n is more |
| TableRounds.LossyRoundsSettle | crates/op-evm/src/block/holocene/mod.rs:43-94 | the same when each round loses any set of lookups: only what the last round has seen decides on the logic |
| TableRounds.SecondGranite | crates/op-evm/src/block/granite.rs:145-168 | a second run of Granite fits if and only if the proxy's code is long enough too, and leaves that code with the token in every window and no logic of frax |
| ChainMigration.ChainTracksFork | crates/op-evm/src/block/mod.rs:186-213 | on the cells its table uses, whatever the other forks do and whatever reads fail, a chain that runs through means to a fork its table carried out once for every block in which its gate is open, each time with the lost codes seen as empty |
| ChainMigration.ChainOutcome | crates/op-evm/src/block/mod.rs:186-213 | without failing reads a chain of blocks runs through if and only if every fork's ranges are in bounds, in the contracts' codes the first time and in the proxy's code any later time, and panics otherwise |
| ChainMigration.LogicOverChain | crates/op-evm/src/block/holocene/mod.rs:45-92 | after a chain that opened a fork's gate, whatever reads failed, every upgraded contract runs the proxy's code in front of the patched code the last firing has seen: its own if the gate opened once, the proxy's if more often, none if that lookup was lost |
| ChainMigration.LogicKeptIff | crates/op-evm/src/block/holocene/mod.rs:27-28 | over strictly increasing timestamps, whatever reads fail, an upgraded contract keeps its own logic if and only if F and F + 1 are not both block times or the proxy's code patched the same way is that logic; where the last firing lost its lookup, if and only if it had no code |
| ChainMigration.LateFork | crates/op-evm/src/block/mod.rs:186-213 | blocks before the gate first opens may run any transactions: the outcome is the one relative to the world they leave |
| ChainMigration.EachTableOnce | crates/op-evm/src/block/mod.rs:191-210 | a chain in which no gate opens twice runs every fired table exactly once |
| ChainMigration.ChainMigratesOnce | crates/op-evm/src/block/mod.rs:186-213 | over such a chain, whatever block each fork falls in, whatever transactions run in between and whatever reads fail, migrations that succeed amount to every fired table once, all at once, on the original world, with the lost codes seen as empty; without failing reads they succeed exactly when every fired table fits it |
| ChainMigration.CrossedForksFire | crates/op-evm/src/block/mod.rs:191-210 | at a spacing of two seconds every fork is decided on its own: its table runs once if the chain has a block in its window and never otherwise |
| ChainMigration.EarlyBlockLosesLogic | crates/op-evm/src/block/holocene/mod.rs:27-28 | on every chain id, whatever other forks do: with block times F and F + 1 Holocene runs twice, the second run needs nothing more to succeed, and every token ends with the proxy's own code as its logic |
| ChainMigration.TokenLosesLogic | crates/op-evm/src/block/holocene/mod.rs:27-28 | a concrete chain of two blocks in which that happens |
| Executor.FraxtalBlockExecutor.constructor | crates/op-evm/src/block/mod.rs:98-111 | a new executor has empty receipts, zero totals and the Regolith flag of its block time |
| Executor.FraxtalBlockExecutor.ApplyPreExecutionChanges | crates/op-evm/src/block/mod.rs:186-213 | the two system calls, each committed or ending the step, then the four migrations in order on the executor's database; a failed read is returned as an error, a slice out of range panics; totals and receipts unchanged |
| Executor.FraxtalBlockExecutor.JovianDaFootprintEstimation | crates/op-evm/src/block/mod.rs:146-169 | the L1 block contract is loaded before its scalar is fetched; the footprint is the saturating product of the size estimate and the scalar |
| Executor.FraxtalBlockExecutor.ExecuteTransactionWithoutCommit | crates/op-evm/src/block/mod.rs:215-271 | the gas check, the footprint check and the EVM result, with every error; only reads happen |
| Executor.FraxtalBlockExecutor.CommitTransaction | crates/op-evm/src/block/mod.rs:273-343 | the whole new state: totals, receipt, committed diff, and the deposit nonce read before the diff |
| Executor.FraxtalBlockExecutor.Finish | crates/op-evm/src/block/mod.rs:345-377 | balance increments committed or an error with the state as it was; a state hook that cannot be told of them is an error after the commit; otherwise gas from the last receipt or zero, and the footprint total |
| BlockRules.CommittedIff | crates/op-evm/src/block/mod.rs:215-287 | whatever reads fail, exactly what a transaction needs to be committed: gas left, or a deposit before Regolith; under Jovian two reads and footprint left, unless it is a deposit; a result from the EVM; and from Regolith on, for a deposit, the read of its sender |
| BlockRules.GasRule | crates/op-evm/src/block/mod.rs:222-231 | exactly when a transaction is rejected for its gas, and the two amounts the error names |
| BlockRules.FootprintRule | crates/op-evm/src/block/mod.rs:146-254 | the footprint is the whole millions in the compressed size of the enveloped bytes, or of the 2718 encoding without them, times the scalar, capped; a transaction is rejected for it exactly when it is more than what is left, the error names both, and a committed one is charged just that |
| BlockRules.FootprintsCharged | crates/op-evm/src/block/mod.rs:296-302 | for every block, whatever reads fail, each committed transaction is charged the footprint of its own bytes at the scalar of its own world, deposits and blocks before Jovian nothing |
| BlockRules.ReadRule | crates/op-evm/src/block/mod.rs:160-166 | exactly when execution fails on the database, and that it changes nothing but the reads |
| BlockRules.ReceiptsTellOfExecution | crates/op-evm/src/block/mod.rs:280-342 | for every block, whatever reads fail: one receipt per committed transaction, with the verdict and logs of the EVM in the world the transactions before it left, the type, and for deposits the version from Canyon and the sender's nonce from Regolith on; and the block's world is the last diff laid over the ones before |
| BlockRules.LogListsAccepted | crates/op-evm/src/block/mod.rs:215-342 | the log these laws speak of lists the committed transactions in block order |
| BlockRules.SystemCallsLeaveDiffs | crates/op-evm/src/block/mod.rs:186-189 | both system calls leave their diffs, the second computed on what the first left; one that fails leaves what was there |
| BlockRules.IncrementsStay | crates/op-evm/src/block/mod.rs:345-363 | the balance increments stay even when the state hook then fails |
| ExecutorRuns.AcceptedIff | crates/op-evm/src/block/mod.rs:222-254 | while totals are within the limit, the wrapping and saturating checks admit exactly the transactions that fit in unbounded arithmetic |
| ExecutorRuns.GasNeverWraps | crates/op-evm/src/block/mod.rs:222-231 | in every reachable state, under Regolith or without deposits, gas used is within the block limit and equals the unbounded sum of the committed amounts |
| ExecutorRuns.DaNeverSaturates | crates/op-evm/src/block/mod.rs:296-302 | in every reachable state the footprint is within the limit and equals the unbounded sum of the committed footprints, zero before Jovian |
| ExecutorRuns.DaStep | crates/op-evm/src/block/mod.rs:233-254 | a committed transaction is charged its footprint under Jovian when it is no deposit, and nothing otherwise |
| ExecutorRuns.GasIsExactModulo | crates/op-evm/src/block/mod.rs:289-318 | for every block, deposits and early forks included: the gas total and every receipt are the sums of the committed amounts modulo 2^64 |
| ExecutorRuns.ReceiptsArePrefixSums | crates/op-evm/src/block/mod.rs:289-318 | for every block: one receipt per commit, and receipt i carries the sum of the first i + 1 committed amounts, for all receipts, if and only if the block's gas fits a u64 |
| ExecutorRuns.ReceiptsNeverDecrease | crates/op-evm/src/block/mod.rs:318 | for every block: cumulative gas never decreases along the receipts if and only if the block's gas fits a u64 |
| ExecutorRuns.FinishReportsTotals | crates/op-evm/src/block/mod.rs:365-376 | finishing reports the executor's own totals for every run, including the empty block |
| ExecutorRuns.FinishedBlockTotals | crates/op-evm/src/block/mod.rs:365-376 | for every block: the reported footprint is the sum over the committed transactions, zero before Jovian, and the reported gas is the sum modulo 2^64, the sum itself if and only if it fits |
| ExecutorRuns.BooksKeptIff | crates/op-evm/src/block/mod.rs:225 | a step keeps the gas total exact and within the limit for every gas-respecting EVM if and only if Regolith is active, the transaction is no deposit, or it fits anyway |
| ExecutorRuns.SkippingRefinesAcceptedRun | crates/op-evm/src/block/mod.rs:215-343 | whatever reads fail, dropping every rejected transaction gives the same totals, receipts, log and world on a database with the same contents and no failing reads, and nothing left is rejected |
| ExecutorRuns.GasRejectedLeaveNoTrace | crates/op-evm/src/block/mod.rs:222-231 | under any failing reads, dropping what the gas check rejects gives the very same ledger, read count included |
| ExecutorRuns.GasRejectionsFinalIff | crates/op-evm/src/block/mod.rs:222-231 | for every block: what the gas check rejects at one point it rejects at every later one, for all points and transactions, if and only if the gas of the block stays within its limit |
| ExecutorRuns.GasRejectionIsFinal | crates/op-evm/src/block/mod.rs:225-231 | under Regolith, without deposits, or whenever the block's gas stays within its limit, a transaction the gas check rejects is rejected at every later point |
| ExecutorRuns.DepositReopensBlock | crates/op-evm/src/block/mod.rs:222-231 | a concrete block before Regolith whose deposit uses more gas than the limit, after which a transaction rejected before is admitted |
| ExecutorRuns.DaRejectionIsFinal | crates/op-evm/src/block/mod.rs:238-249 | the same for the footprint check while the scalar stays the same |
| ExecutorRuns.SaturatedCheckIsExact | crates/op-evm/src/block/mod.rs:158-168 | the saturating check decides like unbounded arithmetic if and only if the available footprint is below the u64 maximum or the product fits a u64 |
| ExecutorRuns.SmallerFootprintPasses | crates/op-evm/src/block/mod.rs:238-249 | acceptance is monotone in the size estimate and in the scalar |
| ExecutorRuns.DepositNonces | crates/op-evm/src/block/mod.rs:280-287 | each deposit receipt records the sender's nonce before its own diff: the initial nonce plus the sender's transactions committed earlier |
| PendingResults.OneAtATimeIsSafe | crates/op-evm/src/block/mod.rs:215-302 | with each result committed before the next execution the footprint stays within the limit in every reachable state; so does the gas if the EVM respects gas limits and no deposit escapes the check |
| PendingResults.PendingSafeIff | crates/op-evm/src/block/mod.rs:291-294 | committing several pending results, whichever commits fail, adds exactly and stays within the limit if and only if those that succeed together fit into what is left |
| PendingResults.PendingFootprintsSafeIff | crates/op-evm/src/block/mod.rs:296-302 | the same for the data-availability footprints of pending results |
| PendingResults.TwoPendingBreak | crates/op-evm/src/block/mod.rs:222-294 | two results executed before either is committed, before and under Jovian, can pass the limit, after which the subtraction wraps to more than the block and admits larger transactions |
| PendingResults.TwoPendingFootprintsBreak | crates/op-evm/src/block/mod.rs:233-302 | under Jovian two pending results can pass the limit with their footprints, and the footprint left then wraps to more than the block |
| PendingResults.PendingResultsBreakTheLimit | crates/op-evm/src/block/mod.rs:222-294 | a concrete block in which that happens |
| PendingResults.PendingFootprintsBreakTheLimit | crates/op-evm/src/block/mod.rs:233-302 | a concrete block in which that happens while its gas stays within the limit |

## Left out

- That the EVM uses no more gas than a transaction's limit is an assumption of the gas results, as it is of the accounting itself.
- ChainMigration.ChainMigratesOnce: between the migrations anything may happen to nonces, balances, other accounts and the store of codes, but the codes and slots the fired tables use must stay as they are from the first block of the chain on; `ChainMigration.LateFork` drops this for the blocks before a fork's gate opens.
- The lengths of the deployed codes are facts about external data and stay conditions, as does the match between the create2 bytecode and its hash.
- What the system calls for block hashes and the beacon root and the balance increments compute: library code, here parameters that give a diff or fail. Of the state hook only its one failure exit is modelled: it observes and changes nothing.
- EVM interpretation, precompiles, inspectors, transaction decoding, Keccak and the size estimate: parameters of the model.
- Removal of empty accounts on commit and library treatment of unchanged slots: the database library is not part of this model.
- The bytes of the create2 deployer: a parameter.
- Validation of EIP-7702 delegation code when bytecode is rebuilt: library behaviour.
- The storage table keeps its order and contents, but its rows are written contract by contract, as a list of slots and values each, instead of one record per row.
- The three loops of the Holocene migration are separate methods here, and the bodies of the Holocene and Isthmus loops are methods of their own; the client's `migrate_frax_holocene` and `migrate_frax_isthmus` hold them inline.
- crates/evm, crates/node, crates/chainspec and the binary: configuration, wiring and input or output.
