# Phoenixcoin: a verified model

Dafny models of the parts of the Phoenixcoin node in which several pieces of state must be kept in step, with proofs of
what those parts are for. Hash functions, scripts and signatures are open: they are parameters, or fields whose values
are arbitrary, so everything holds for every choice of them. Every method follows the branches of the code it models;
storage failures, crashes, thread interleavings, clocks and random draws are arbitrary. Where a method may fail because storage does,
a flag (`reliable`, `healthy`, `calm`) marks the times without failures, and the contracts say exactly what it does then.
What an operation decides (which block is lawful, which entry goes, what a target becomes, when a wallet starts) is said by ghost
predicates with the numbers written out, apart from the definitions the methods use.

`dafny verify dfyconfig.toml` checks everything; the options of a run are in that file.

## What is proved

**Chain state** (`ChainTypes`, `TxIndex`, `ConnectSpec`, `Money`, `MoneySupply`, `BlockTree`, `Storage`, `Connect`,
`ChainSpec`, `ChainState`, `ImportBatch`, `BatchEquivalence`, `SyncCheckpoints`, `History`, `ChainRun`, `CheckpointSplit`,
`Overwriting`, `BlockLaw`, `LawMatches`). The rules of connecting a block are stated on values, and once more as the law of a
block in its own terms; the two are proved the same. The methods that check, queue, write, reorganise, batch, roll back,
adopt checkpoints and load are proved against them. In any history of blocks, imports, checkpoint messages, storage failures
and restarts, the committed index is the replay of the main chain from genesis, a failed switch changes nothing, and all
unspent outputs together are worth at most the subsidies paid. Memory and database agree on the tip if and only if no
postponed reconnect was left over, and `LeftOverIff` says exactly when one is; after a restart they agree again. A batch does
what its blocks do one by one.

**LMDB** (`Lmdb`, `LmdbTxn`, `LmdbGate`, `PrefixScan`). A transaction that aborts on a full map, grows it and replays its
log is a plain all-or-nothing transaction; the gate around resizing is safe and free of deadlock for any number of
threads with a transaction each; a prefix scan visits exactly the matching keys.

**Wallet** (`WalletStore`). Directories, marker and process as a small file system in which every step may fail or be
the last one.

**Address manager** (`AddrTables`, `AddrMan`, `AddrStore`, `AddrCheck`). Every operation keeps the tables consistent and
has its full new state in its contract; a written file reads back as the same book; the code's own check decides exactly
its predicate.

**NeoScrypt** (`Bytes`, `Sha256`, `Blake2s`, `FastKdf`, `FastKdfOpt`, `BlkMix`). Streaming, mirrored buffers and
hand-optimised forms equal their specifications, with the compression functions open.

**Block templates** (`CreateNewBlock`, `Template`). Dependency sets and heap make a greedy choice; the block made from it is
accepted by the rules of connecting if and only if a short condition holds.

**Others**: `Merkle`, `Locator`, `Retarget`.

## Where the code does not do what it might seem to

- Disconnecting a block restores the index only if the block overwrote no record. BIP30 as coded lets it overwrite a
  completely spent one, whose record is then lost (`DisconnectUndoesConnect`, `OverwritingIsNotUndone`).
- A synchronised checkpoint makes its block the tip however little work it has. A later block on a heavier branch is then
  connected with postponed reconnects, and if the rules refuse one, memory names a tip the database does not have
  (`LeftOverIff`; a whole run is `CheckpointSplit.Split`). Without checkpoint messages the tip is always the heaviest block,
  and that never happens (`ChainRun.Run`).
- A block template never contains a transaction that spends another of the memory pool, although the choice waits for parents:
  the parent's entry is found in the test pool, and its transaction is then read from disk at (1,1,1), where it is not
  (`DependentsLeftOut`, `DependentRefused`).
- `GetMoneySupply` stops at height 4,000,000 although the subsidy does not; on the test network it is right only
  between heights 600 and 74,099 and at one later height (`MainSupplyExact`, `TestSupplyExact`).
- `SelectTried` remembers the place an entry was drawn from, and then swaps: the place it returns holds the oldest inspected
  entry only if its draw left it in place (`PickTried`; with other draws, `OldestKept`).
- A wallet marked as LMDB's, or a wallet.dat to be migrated, without a single record is refused at the next start
  (`WalletDir.Start`, `EmptyWalletRefused`, `EmptyWalletDatRefused`).
- BLAKE2s without a key hashes a zero block first, and so differs from RFC 7693; with a key it does not
  (`FollowsRfcIffKeyed`).

## Model

| member | source | states |
|---|---|---|
| ChainTypes.PastHeader | src/main.cpp:1651-1658 | no transaction of a block has the position (1,1,1) given to transactions in no block |
| ChainTypes.ReadBack | src/main.h:615-640 | a transaction is found again at the position computed for it when its block was connected, whatever its place in the block |
| TxIndexSpec.SpendAllMeaning | src/main.cpp:1504-1538 | marking the inputs of a transaction one after another succeeds if and only if they are distinct and all unspent, and then stamps exactly these outputs with the spender's position |
| TxIndexSpec.ReleaseAllMeaning | src/main.cpp:1268-1294 | releasing succeeds if and only if every input names an existing output, spent or not, and clears exactly these marks |
| TxIndexSpec.ReleaseUndoesSpend | src/main.cpp:1268-1294 | releasing what was just spent restores the index exactly |
| TxIndexSpec.UndoTxMeaning | src/main.cpp:1268-1301 | undoing a transaction gives back the index before it, less any old record under its own txid |
| TxIndexSpec.UndoBlockMeaning | src/main.cpp:1605-1612 | undoing a whole block, last transaction first, gives back the old index less the records under its txids, however its transactions spend one another |
| TxIndexSpec.DisconnectUndoesConnect | src/main.cpp:1605-1612 | for a block that passed BIP30, disconnecting undoes connecting exactly if and only if none of its txids was in the index before |
| TxIndexSpec.LostRecordBlocksDisconnect | src/main.cpp:1284-1294 | if a connected block overwrote a fully spent record, an earlier spender of that record can no longer be undone once the block is |
| Overwriting.CoinBaseConnects | src/main.cpp:1660-1713 | a block of a coinbase alone connects wherever its record is absent or completely spent |
| Overwriting.SpenderConnects | src/main.cpp:1685-1707 | a later block that spends the first coinbase connects wherever that is known, unspent and mature and the signature verifies |
| Overwriting.OverwritingIsNotUndone | src/main.cpp:1667-1674 | so three blocks, a coinbase, its spender, and the same coinbase again, are all accepted by the rules; disconnecting the last does not bring the overwritten record back, and the spender cannot be undone then |
| ConnectSpec.BareAccepts | src/main.cpp:1675-1708 | leaving out signatures, maturity and script operation counts changes neither the resulting index nor the fees of an accepted block |
| ConnectSpec.ConnectIsApply | src/main.cpp:1675-1708 | an accepted block changes the index exactly as spending its inputs and entering its outputs in order does |
| BlockLaw.SignaturesUnseen | src/main.cpp:1517-1528 | below the checkpoints' estimate the law of a block is the same whatever signatures say |
| BlockLaw.ApplyMeaning | src/main.cpp:1663-1708 | the index after any number of a block's transactions: each has a record at its own place, and every output, old or new, carries the place of the one that spends it |
| LawMatches.SoundTxIs | src/main.cpp:465-511 | a transaction passes by itself exactly if amounts and their sum are within the money there can be, inputs are distinct, and only a coinbase has the null input |
| LawMatches.StepInLaw | src/main.cpp:1460-1553 | one transaction is accepted exactly if it is lawful where it stands and the operations stay within 15,625 |
| LawMatches.RulesAreLaw | src/main.cpp:1625-1713 | the rules accept exactly the lawful blocks: inputs there, unspent, mature and signed for, nothing overwritten, no more paid out than put in, operations within the limit, and the coinbase within subsidy and fees |
| Money.SpendTakesValue | src/main.cpp:1418-1443 | spending one output lowers the total of unspent value by that output |
| Money.SpendAllTakesValueIn | src/main.cpp:1431-1443 | spending the inputs of a transaction lowers the total by exactly GetValueIn |
| Money.EntryAddsOutputs | src/main.cpp:1707-1707 | entering a new record over an absent or fully spent one raises the total by exactly the sum of its outputs |
| Money.TxBalance | src/main.cpp:1540-1550 | unspent total plus fees is unchanged by an ordinary transaction and grows by the outputs of a coinbase; fees never shrink |
| Money.BlockBalance | src/main.cpp:1663-1708 | over any prefix of a block, unspent total plus collected fees grows by the coinbase outputs and nothing else |
| Money.BlockConservesMoney | src/main.cpp:1625-1713 | an accepted block raises the unspent total by at most the subsidy of its height, and its fees are bounded by the money there is |
| MoneySupply.GetMoneySupply | src/main.cpp:965-1024 | the loops and period sums equal the closed form, on both networks, at every height |
| MoneySupply.SubsidyByPeriod | src/main.cpp:948-962 | the halving rule with its exceptional periods, period by period below height 4,000,000 |
| MoneySupply.MainSupplyExact | src/main.cpp:965-1024 | on the main network the reported supply is the sum of all subsidies up to a height if and only if the height is below 4,000,000 |
| MoneySupply.TestSupplyExact | src/main.cpp:970-990 | on the test network it is so exactly for heights 600 to 74,099, and once more, by coincidence, at 2,159,799 |
| BlockTree.BranchPrefix | src/main.h:1165-1190 | the block at height k of a branch has height k, and its own branch is the first k + 1 blocks |
| BlockTree.BranchStable | src/main.cpp:2309-2317 | adding a new leaf changes no existing branch |
| BlockTree.LinksMeaning | src/main.cpp:1819-1827 | the pnext links of a branch: a block has one exactly if it is on the branch below the tip, and it names the next block |
| BlockTree.LinksShrink | src/main.cpp:1819-1822 | clearing the link of the last block but one leaves the links of the shorter branch |
| BlockTree.LongerStepsBack | src/main.cpp:1751-1753 | stepping the longer side back loses no common ancestor |
| BlockTree.ForkStepsBack | src/main.cpp:1754-1758 | stepping the fork side back loses no common ancestor, and having no parent left means there is none |
| BlockTree.BranchGrown | src/main.cpp:2309-2317 | however the tree grows, the branches there were stay what they are |
| BlockTree.FindFork | src/main.cpp:1746-1758 | the search ends, at the last common ancestor, and fails only if there is no common ancestor |
| Storage.TxDb.TxnBegin | src/db.h:709-727 | a transaction starts from the committed records, unless one is open or the store fails |
| Storage.TxDb.TxnCommit | src/db.h:729-772 | all or nothing, and nothing at all after a failed write |
| Storage.TxDb.ReadTxIndex | src/db.cpp:2540-2545 | a read inside the transaction sees what it wrote |
| Storage.TxDb.UpdateTxIndex | src/db.cpp:2547-2552 | one record of the open transaction changes, or the transaction is spoiled |
| Storage.TxDb.EraseTxIndex | src/db.cpp:2563-2569 | one record goes, or the transaction is spoiled |
| Storage.TxDb.WriteBlockIndex | src/db.cpp:2603-2606 | one block record changes, or the transaction is spoiled |
| Storage.TxDb.WriteHashBestChain | src/db.cpp:2613-2616 | the best-chain record changes, or the transaction is spoiled |
| Storage.TxDb.ReadBlockFromDisk | src/main.cpp:917-929 | a block that is read back hashes to the key of its index entry |
| Connect.TooYoungMeaning | src/main.cpp:1488-1493 | the maturity walk finds a coinbase exactly if its block is on the branch within the maturity depth |
| Connect.IsTooYoung | src/main.cpp:1488-1493 | the loop over pprev computes that walk |
| Connect.PrevoutsInRange | src/main.cpp:1396-1413 | the second loop of FetchInputs accepts exactly when every input names an existing output of its previous transaction |
| Connect.FetchInputs | src/main.cpp:1304-1416 | it accepts exactly when every previous transaction is indexed, readable and long enough, looking through the queue first; the cache holds exactly these; no rule is blamed for a storage failure and a sound store never fails |
| Connect.GetValueIn | src/main.cpp:1431-1443 | the loop over the cache gives the sum of the previous outputs |
| Connect.GetP2SHSigOpCount | src/main.cpp:1445-1458 | the loop gives the sum of the script operations of all inputs |
| Connect.ValueOut | src/main.h:585-595 | the loop gives the sum of the outputs |
| Connect.CheckInputs | src/main.cpp:1470-1500 | the first loop accepts exactly if every input is mature and each amount and partial sum is in range |
| Connect.AllVerifyMeaning | src/main.cpp:1517-1528 | verifying input by input is verifying every input |
| Connect.SpendInputs | src/main.cpp:1504-1538 | the second loop succeeds exactly if all inputs are distinct, unspent and verify, and queues the index of a spend of all of them |
| Connect.ConnectInputs | src/main.cpp:1460-1553 | accepts exactly under the rules on inputs and if no input was spent, and then the queue on top of the database is the spent index |
| Connect.ConnectSpender | src/main.cpp:1685-1705 | everything a spending transaction goes through: accepted exactly under the rules, with its fee and operations counted |
| Connect.ConnectOne | src/main.cpp:1676-1707 | one turn of ConnectBlock equals one step of the rules, on the queue laid over the database |
| Connect.OverwritesUnspent | src/main.cpp:1667-1674 | the BIP30 loop finds a record with an unspent output exactly if there is one |
| Connect.ConnectAll | src/main.cpp:1660-1708 | the loop accepts exactly if BIP30 and the rules do, and queues the index they call for |
| Connect.WriteQueue | src/main.cpp:1718-1723 | writing the queue, in any order, adds exactly the queue to the index, or spoils the transaction |
| Connect.CheckAndQueue | src/main.cpp:1625-1713 | everything before the first write: a block is accepted exactly if it is lawful, the coinbase limit included, and refused exactly if not |
| Connect.ConnectBlock | src/main.cpp:1625-1740 | accepted exactly if lawful: from the checkpoints' estimate on every signature verifies, below it none is looked at; then the open transaction holds the index with the block applied and the parent record points forward; never faulted on a sound store |
| Connect.ReleaseAllPrefix | src/main.cpp:1284-1294 | once an input cannot be released, the transaction cannot be undone |
| Connect.DisconnectInputs | src/main.cpp:1268-1301 | the loop computes the undo of one transaction, refused exactly if that has none |
| Connect.DisconnectBlock | src/main.cpp:1605-1623 | the backward loop computes the undo of the block, and the parent record loses its forward link |
| ChainSpec.RejectsUnlawful | src/main.cpp:1625-1713 | a block is refused on top of its parent exactly if it is not lawful there |
| ChainSpec.ConnectBlockIsApply | src/main.cpp:1625-1740 | an accepted block enters exactly its txids, and the resulting index does not depend on which checks were skipped |
| ChainSpec.ReplayKeys | src/main.cpp:1660-1723 | the replayed index has exactly the txids of the branch |
| ChainSpec.UndoTip | src/main.cpp:1605-1623 | undoing the tip of a branch of fresh txids gives the replay of its parent |
| ChainSpec.SupplyBound | src/main.cpp:1710-1713 | the replay of any branch of height h is worth between nothing and the subsidies of heights 1 to h |
| ChainSpec.ImageStep | src/main.cpp:1725-1733 | writing one parent record moves the stored block index from one tip to the next, or back |
| ChainSpec.DisconnectStep | src/main.cpp:1605-1623 | records at a tip become, by DisconnectBlock, the records at its parent; with fresh txids that never fails |
| ChainSpec.ConnectStep | src/main.cpp:1625-1740 | records at a parent become, by ConnectBlock, the records at the block |
| ChainSpec.AddLeaf | src/main.cpp:2359-2360 | writing the record of a new leaf leaves the records at the tip of the larger tree |
| ChainSpec.ReplayStable | src/main.cpp:2305-2317 | a new leaf changes no replay |
| ChainSpec.ReplayGrows | src/main.cpp:2582-2588 | appending to the block files changes no replay |
| ChainSpec.DiskGrows | src/main.cpp:2582-2588 | appending to the block files keeps trees stored, txids fresh and records at their tips |
| ChainStateMachine.ChainState.constructor | src/main.cpp:2918-2920 | a new node satisfies the invariant with nothing in it |
| ChainStateMachine.ChainState.DisconnectTip | src/main.cpp:1780-1786 | the open transaction moves from the tip to its parent; on a sound store always |
| ChainStateMachine.ChainState.ConnectTip | src/main.cpp:1848-1849 | the open transaction moves from parent to block, exactly if the rules allow the block there |
| ChainStateMachine.ChainState.SetBestChainInner | src/main.cpp:1843-1866 | connects and commits, or commits nothing and changes no pointer; refused exactly if the rules refuse |
| ChainStateMachine.ChainState.DisconnectBranch | src/main.cpp:1778-1792 | the open transaction moves from the tip down to the fork |
| ChainStateMachine.ChainState.ConnectBranch | src/main.cpp:1794-1811 | the open transaction moves from the fork up to the new tip, exactly if the rules allow every block above the fork |
| ChainStateMachine.ChainState.SwitchDatabase | src/main.cpp:1778-1817 | one commit for the whole switch, or nothing committed; refused exactly if some block above the fork is |
| ChainStateMachine.ChainState.Reorganize | src/main.cpp:1742-1840 | database and links move to the new tip, or nothing committed and no pointer changed; unless storage fails, refused exactly if the rules refuse a block above the last common ancestor |
| ChainStateMachine.ChainState.ConnectNext | src/main.cpp:1934-1947 | one postponed reconnect, in its own transaction: done completely, which the rules must allow, or not at all; on a sound store exactly if they do |
| ChainStateMachine.ChainState.ConnectPostponed | src/main.cpp:1931-1948 | reconnects stop at the first failure, with database and links at the block reached; every block before it was allowed, and on a sound store it is refused |
| ChainStateMachine.ChainState.SwitchBranch | src/main.cpp:1906-1949 | the side-branch case: how many reconnects are left over, exactly |
| ChainStateMachine.ChainState.MoveChain | src/main.cpp:1881-1949 | the four cases of SetBestChain, with what each leaves committed, linked, open and left over |
| ChainStateMachine.ChainState.SetBestChain | src/main.cpp:1868-2011 | the new tip is recorded in memory; the database is at it too, or exactly as many blocks behind as postponed reconnects were left over; on failure every field is as before |
| ChainStateMachine.ChainState.SetBestChainOwn | src/main.cpp:1868-1949 | the call that begins its own transaction, for any stored block off the main chain however little work it has: at rest afterwards if and only if nothing is left over |
| ChainStateMachine.ChainState.BringToMainChain | src/checkpoints.cpp:474-487 | what a checkpoint does to the chain: nothing if its block is on the main chain, else that block is the tip; refused only because of a block that is not postponed |
| ChainStateMachine.PostponedVerdict | src/main.cpp:1906-1948 | the blocks postponed are exactly those of the branch whose parent is heavier than the old tip |
| ChainStateMachine.LeftOverIff | src/main.cpp:1906-1948 | reconnects are left over only if the parent of the new tip was heavier than the old one, and, on a sound store, if and only if the rules refuse a postponed block |
| ChainStateMachine.ChainState.RollbackBlockIndexEntry | src/main.cpp:2014-2036 | a candidate entry goes with the link to it; an entry of the main chain stays |
| ChainStateMachine.ChainState.AddToBlockIndex | src/main.cpp:2298-2393 | from any state at rest, whether or not the tip is the heaviest block. Not accepted: memory and committed records are as before. Accepted: the entry is in the tree, a heavier block is the tip, and the chain is at rest if and only if no reconnect is left over; a heaviest tip stays one, and leaves none over |
| ChainStateMachine.ChainState.InsertAndConnect | src/main.cpp:2336-2371 | on failure only the candidate entry is left behind |
| ChainStateMachine.ChainState.ConnectInserted | src/main.cpp:2362-2371 | a heavier block becomes the tip, a lighter one is only stored |
| ChainStateMachine.ChainState.TipReached | src/main.cpp:1963-1968 | after a new tip the chain is at rest if and only if no reconnect was left over, and otherwise lags by that many blocks |
| ChainStateMachine.ChainState.WriteToDisk | src/main.cpp:2582-2588 | appending a block to the files keeps the invariant |
| ChainStateMachine.ChainState.AcceptBlock | src/main.cpp:2458-2590 | the part of AcceptBlock about duplicates, unknown parents, storing and adding; the checks between are in SyncCheckpoints or left out |
| ChainStateMachine.ChainState.LoadBlockIndex | src/db.cpp:2664-2840 | whatever memory held, it shows tree, links and tip of the committed records afterwards, and the blocks checked on the way pass; on a sound store it succeeds |
| ChainStateMachine.ChainState.ImageLoads | src/db.cpp:2853-2899 | the records written are the tree and the links read back |
| ChainStateMachine.ChainState.VerifyBest | src/db.cpp:2714-2838 | the verification reads the last blocks down to the depth asked for, 0 meaning all but genesis, and succeeds exactly if it has read them all; it never moves the chain back |
| ChainStateMachine.ChainState.IsInMainChain | src/main.h:1269-1272 | having a successor or being the tip is being on the branch of the tip |
| ChainStateMachine.ChainState.FindBlockByHeight | src/main.cpp:899-915 | the walk from tip, genesis or cached block finds the ancestor of the tip at that height, and the cache stays on the branch |
| ChainStateMachine.WalkTo | src/main.cpp:905-913 | walking by pprev and pnext from any block of the branch reaches the block at the height |
| ChainStateMachine.Postpone | src/main.cpp:1906-1918 | the reconnects postponed are exactly the blocks whose parent is heavier than the tip |
| ChainStateMachine.ListBack | src/main.cpp:1760-1769 | the list of blocks from a tip down to an ancestor |
| ChainStateMachine.ClearLinks | src/main.cpp:1819-1822 | clearing the disconnected links leaves the links of the branch to the fork |
| ChainStateMachine.SetLinks | src/main.cpp:1824-1827 | setting the connected links gives the links of the branch to the new tip |
| ChainStateMachine.NoneRejected | src/main.cpp:1796-1811 | if every block put on was allowed, no block above the fork is refused |
| ChainStateMachine.TreeGrows | src/main.cpp:2306-2317 | a new entry keeps the tree well formed, stored and free of repeated txids |
| ImportBatch.CChainImportBatch.Begin | src/main.cpp:2139-2159 | the snapshot is taken and the batch runs; on a sound store always |
| ImportBatch.CChainImportBatch.Append | src/main.cpp:2298-2371 | an accepted block is in the tree, recorded, linked and in the open transaction, and allowed by the rules; anything else leaves a batch that can be aborted; on a sound store, faulted exactly for a duplicate or a block that does not extend the tip |
| ImportBatch.CChainImportBatch.RecordEntry | src/main.cpp:2169-2174 | the entry is in the tree and will be taken back by a rollback |
| ImportBatch.CChainImportBatch.ConnectRecorded | src/main.cpp:2359-2367 | the recorded block becomes the tip in memory and in the open transaction |
| ImportBatch.CChainImportBatch.WriteToDisk | src/main.cpp:2582-2588 | appending a block to the files keeps a running batch running |
| ImportBatch.CChainImportBatch.AcceptBlock | src/main.cpp:2458-2613 | a block from outside inside a batch, but for the checks of header and time; accepted or refused as the rules have it |
| ImportBatch.CChainImportBatch.RollbackMemory | src/main.cpp:2249-2280 | last block first, tree, links, tip, genesis, height, work and height cache are those of the snapshot |
| ImportBatch.CChainImportBatch.Abort | src/main.cpp:2225-2236 | tree, tip, cache and committed records are exactly what Begin found, after any number of blocks |
| ImportBatch.CChainImportBatch.Commit | src/main.cpp:2178-2223 | every recorded block is committed, or everything is exactly what Begin found |
| ImportBatch.BranchStacked | src/main.cpp:2162-2174 | the batch is the part of the tip's branch above the old tip |
| ImportBatch.Unwind | src/main.cpp:2249-2260 | taking the blocks back one by one restores tree and links, also when the last was never linked |
| ImportBatch.RestIsDetermined | src/main.cpp:2178-2223 | at rest, tree, block files and tip determine links, heights, work and all committed records |
| BatchEquivalence.Both | src/main.cpp:2298-2371 | one block that extends the tip, into a batch and into another node without: the same verdict, and the same memory |
| BatchEquivalence.JudgedOnce | src/main.cpp:2298-2371 | the verdicts on a list of blocks are determined by the rules on each in its place, up to the first refused or not extending the tip |
| BatchEquivalence.AllOrRefused | src/main.cpp:2298-2371 | if each block extends the one before it, all are looked at, or the last one looked at is refused |
| BatchEquivalence.InTurn | src/main.cpp:2298-2371 | any blocks into both: exactly those verdicts, and the accepted blocks piled on the old tip |
| BatchEquivalence.SideBySide | src/main.cpp:2178-2223 | any blocks, in one batch on one node and one by one on another: exactly those verdicts on both; if none is refused the batch commits, the last block is the tip, every block is in the tree, and links, height, work and committed records are the same; if one is refused the batch has changed nothing and the other node keeps the blocks before it |
| ChainRun.Receive | src/main.cpp:2458-2613 | a block from a peer joins, becoming the tip exactly if heavier, or is passed over exactly if it may not join, or is refused, on a sound store only with an objection of the rules or checkpoints; the chain is at rest or lags by what was left over |
| ChainRun.ImportOne | src/main.cpp:3096-3147 | one turn of the import loop: the block is skipped exactly if it may not join, else it is in, or the import stops, on a sound store only with an objection, less what the open batch had recorded; a batch has at most 1000 blocks, all from the initial download |
| ChainRun.LoadExternalBlockFile | src/main.cpp:3034-3178 | an import of any file, with batches begun, committed and dropped as it goes: the tree is the old one with the blocks of the file in order, all of them that may join, or on a sound store those up to an objection less those of the batch dropped with it |
| ChainRun.FirstStart | src/main.cpp:2914-2924 | a new node stands at genesis |
| ChainRun.Restart | src/db.cpp:2664-2840 | a restart puts a chain that lagged to rest, at the block the database had reached; checkpoints stay |
| ChainRun.Happen | src/main.cpp:1868-2011 | each event makes one step of its kind; the chain is at rest if and only if nothing was left over; only a checkpoint message can make the tip other than the heaviest block |
| ChainRun.Announce | src/checkpoints.cpp:431-503 | a checkpoint message: adopted, with its block on the main chain, or waiting, or without effect; a good one is adopted on a sound store unless the rules object to its branch |
| ChainRun.Run | src/main.cpp:1868-2011 | any history of blocks, imports, checkpoint messages, storage failures and restarts is a trace of steps, one for each event, up to the first reconnect left over and on from the next restart; without checkpoint messages none ever is, and the tip is the heaviest block throughout; in strict mode the main chain keeps every checkpoint |
| ChainRun.RestMeansReplay | src/main.cpp:1868-2011 | what rest says: committed records are the replay from genesis to the tip, and a block has a pnext exactly if it is a proper ancestor of the tip |
| ChainRun.LagMeansReplay | src/main.cpp:1931-1968 | what lagging says: the same, for the block that many places before the tip |
| ChainRun.SubsidiesPaid | src/main.cpp:965-1024 | the subsidies of heights 1 to h and of genesis are the sum the supply reports |
| ChainRun.NoMoneyFromNothing | src/main.cpp:965-1024 | after any history, below height 4,000,000, all unspent outputs are worth at most the reported supply less the genesis subsidy |
| ChainRun.NoMoneyWhileLagging | src/main.cpp:965-1024 | the same while the chain lags, at the height reached |
| CheckpointSplit.CoinConnects | src/main.cpp:1710-1713 | a block of a coinbase alone connects exactly if it pays no more than the subsidy |
| CheckpointSplit.Extend | src/main.cpp:2458-2613 | harmless blocks are accepted in strict mode |
| CheckpointSplit.Switch | src/checkpoints.cpp:431-503 | a checkpoint on a side branch makes the lighter branch the main chain |
| CheckpointSplit.Split | src/main.cpp:1931-1968 | a run from genesis of blocks of equal work, in strict mode and on a sound store, after which memory names a refused block as tip and the database is one block behind |
| LmdbTransactions.ReplayAt | src/lmdb_kv.cpp:261-287 | a key not touched from some point of the log on has the value it had there |
| LmdbTransactions.CLMDBEnv.GrowMap | src/lmdbdb.cpp:409-494 | it grows only with no lease left, to the computed size; a sound environment grows whenever the ceiling allows |
| LmdbTransactions.CLMDBEnv.TryAcquireWriter | src/lmdbdb.cpp:578-582 | one writer at a time |
| LmdbTransactions.CLMDBTransaction.ReleaseWriter | src/lmdb_kv.cpp:199-205 | the writer lock is given back once |
| LmdbTransactions.CLMDBTransaction.ReleaseLease | src/lmdb_kv.cpp:207-213 | the lease is given back once |
| LmdbTransactions.CLMDBTransaction.ReplayMutations | src/lmdb_kv.cpp:261-287 | the log is redone exactly, writes that must not overwrite included; only a full map or an error stops it |
| LmdbTransactions.CLMDBTransaction.RecoverFromMapFull | src/lmdb_kv.cpp:289-344 | the loop ends; on success the transaction is as good as before the failure, and in a sound environment it fails only at the ceiling |
| LmdbTransactions.CLMDBTransaction.Read | src/lmdb_kv.cpp:357-371 | a value read is the staged one |
| LmdbTransactions.CLMDBTransaction.Write | src/lmdb_kv.cpp:373-402 | the write joins everything staged before, or nothing changes; with room left it reports what a plain map would |
| LmdbTransactions.CLMDBTransaction.Erase | src/lmdb_kv.cpp:404-425 | the erasure joins everything staged before, or nothing changes; with room left it succeeds |
| LmdbTransactions.CLMDBTransaction.CommitOrGrow | src/lmdb_kv.cpp:441-455 | the retry loop publishes everything staged or nothing |
| LmdbTransactions.CLMDBTransaction.Commit | src/lmdb_kv.cpp:432-469 | everything staged or nothing, all locks given back once; with room left it succeeds |
| LmdbTransactions.CLMDBTransaction.Abort | src/lmdb_kv.cpp:471-481 | nothing staged is left, all locks given back once |
| LmdbTransactions.BeginTransaction | src/lmdb_kv.cpp:548-577 | a fresh transaction with its locks, or no lock kept; in a sound environment refused only to a second writer |
| LmdbTransactions.PlainIsDone | src/lmdb_kv.cpp:226-248 | on a plain map, the records left are the operations that succeeded, replayed |
| LmdbTransactions.RunUnderCursor | src/lmdb_kv.cpp:250-298 | while a cursor is open neither the transaction nor the map moves beneath it: an operation that finds the map full fails, and what was staged stays |
| LmdbTransactions.RunTransaction | src/lmdb_kv.cpp:373-469 | a client's whole transaction: all operations reported successful, or none, take effect; and as long as the ceiling is not reached each operation and the commit do exactly what a plain unlimited map would |
| Lmdb.AlignDown | src/lmdbdb.cpp:26-29 | the greatest multiple not above the value |
| Lmdb.GrowTarget | src/lmdbdb.cpp:454-475 | there is no next size exactly if the aligned ceiling is reached; otherwise it is strictly larger and within the ceiling |
| Lmdb.TargetAligned | src/lmdbdb.cpp:464-475 | the next size is a whole number of pages exactly if the old size was at least half a page, empty, or next to the ceiling; LMDB reports no size below half a page, so the first case holds of every map the code grows |
| Lmdb.TargetDoubles | src/lmdbdb.cpp:464-469 | from a whole number of pages, growing doubles, up to the ceiling |
| Lmdb.GrowthsDouble | src/lmdbdb.cpp:464-475 | after k growths the size is 2^k times the first, up to the ceiling: the number of growths is logarithmic |
| LmdbGate.StepKeepsWriter | src/lmdbdb.cpp:578-587 | every step keeps the writer flag equal to there being one, and only one, holder |
| LmdbGate.StepKeepsResize | src/lmdbdb.cpp:409-494 | every step keeps the resize flag equal to a thread waiting to resize |
| LmdbGate.StepKeepsMutex | src/lmdbdb.cpp:198-211 | every step keeps the environment mutex with one holder, and one writing LMDB transaction |
| LmdbGate.StepKeeps | src/lmdbdb.cpp:394-494 | every step of every thread keeps the lease count, writer lock, resize flag and mutex right |
| LmdbGate.ResizeAlone | src/lmdbdb.cpp:409-494 | when the map is resized, no leased and no mutex-protected transaction is live |
| LmdbGate.DrainOnly | src/lmdbdb.cpp:394-399 | while a resize is pending, leases only go down |
| LmdbGate.MapOnlyGrows | src/lmdbdb.cpp:450-494 | no step shrinks the map; only the writer's resize changes it, within the ceiling |
| LmdbGate.NoDeadlock | src/lmdbdb.cpp:394-494 | as long as any thread is inside, some thread can move |
| LmdbGate.RunsAreSafe | src/lmdbdb.cpp:394-494 | all of this in every interleaving of any number of threads: at most one transaction that may write is open, and when all are out, nothing is held |
| PrefixScan.BeforeTotal | src/lmdb_kv.cpp:35-52 | the order of keys is total and strict |
| PrefixScan.PrefixUpperBound | src/lmdb_kv.cpp:41-52 | a bound exists exactly unless every byte is 255, and it is the prefix with its last smaller byte raised |
| PrefixScan.BoundIsExact | src/lmdb_kv.cpp:41-52 | a key has the prefix if and only if it is not before the prefix and before the bound |
| PrefixScan.MaxPrefix | src/lmdb_kv.cpp:111-134 | without a bound, having the prefix is not being before it |
| PrefixScan.CLMDBIterator.SeekToFirst | src/lmdb_kv.cpp:91-109 | valid exactly if a key matches, and at the first that does |
| PrefixScan.CLMDBIterator.SeekToLast | src/lmdb_kv.cpp:111-134 | valid exactly if a key matches, and at the last that does |
| PrefixScan.CLMDBIterator.Seek | src/lmdb_kv.cpp:136-154 | valid exactly if a matching key is not before the sought one, and at the first such |
| PrefixScan.CLMDBIterator.Next | src/lmdb_kv.cpp:156-163 | one key on, or invalid exactly if no later key matches |
| PrefixScan.CLMDBIterator.Prev | src/lmdb_kv.cpp:165-172 | one key back, or invalid exactly if no earlier key matches |
| PrefixScan.Scan | src/lmdb_kv.cpp:91-163 | a scan visits exactly the keys with the prefix, in order |
| WalletStore.CopyRecords | src/db.cpp:1476-1527 | the staged copy has every record or is not used |
| WalletStore.WalletDir.RewriteWalletLMDB | src/db.cpp:1797-1916 | whatever fails and whenever the process dies, what is on disk can be recovered; control comes back only with the wallet open; success leaves one copy; without failures it succeeds |
| WalletStore.WalletDir.InstallRewritten | src/db.cpp:1855-1916 | the same for the part after the old wallet was moved aside, with all its ways back |
| WalletStore.WalletDir.RecoverInterruptedWalletRewrite | src/db.cpp:1573-1612 | recovery never loses or revives records and may itself be interrupted; without failures it leaves exactly the committed wallet |
| WalletStore.WalletDir.ReopenLMDBWallet | src/db.cpp:1737-1755 | reopening changes no complete wallet |
| WalletStore.WalletDir.MigrateWalletToLMDB | src/db.cpp:1444-1547 | all records of wallet.dat or none |
| WalletStore.WalletDir.WriteMarkerLMDB | src/db.cpp:441-474 | the marker names the backend or is absent, never wrong |
| WalletStore.WalletDir.InitLMDBWalletDBInternal | src/db.cpp:1614-1730 | a started wallet is the committed one; exactly when a start without failures succeeds |
| WalletStore.WalletDir.Start | src/db.cpp:2058-2091 | a start that succeeds has the last committed records, whatever happened before; without failures it succeeds, case by case: marked lmdb, exactly for LMDB with records; marked bdb, exactly for BDB; unmarked, for BDB exactly without a wallet directory and for LMDB exactly if that is absent or complete and there are records or no wallet.dat; with an unknown marker never |
| WalletStore.WalletDir.CommitRecords | src/db.cpp:1797-1810 | records committed while the wallet is open become the wallet, in the directory that is open; otherwise nothing changes |
| WalletStore.WalletDir.Happen | src/db.cpp:1573-1916 | what each event makes of the wallet: only a commit to an open one changes what is committed; a start opens that or nothing, in calm times exactly when it should; a crash changes nothing on disk |
| WalletStore.WalletDir.Live | src/db.cpp:1573-1916 | any history of starts, commits, rewrites, failures and crashes is a trace of steps, one for each event, and keeps what holds on disk at every moment |
| WalletStore.EmptyWalletRefused | src/db.cpp:1614-1730 | a new LMDB wallet started once, without a record written, is refused at the next start |
| WalletStore.EmptyWalletDatRefused | src/db.cpp:1532-1535 | a wallet.dat without a record is refused too |
| AddrTables.HoldersRemove | src/addrman.cpp:164-175 | taking an id out of a bucket lowers its reference count by one and no other |
| AddrTables.HoldersAdd | src/addrman.cpp:378-382 | putting an id into a bucket raises its reference count by one and no other |
| AddrTables.PromotionKeepsTables | src/addrman.cpp:212-233 | moving an entry to a tried bucket with place keeps all tables consistent |
| AddrTables.EvictionKeepsTables | src/addrman.cpp:212-264 | exchanging it with a tried entry, which goes back to a new bucket, does too |
| AddrTables.ListSet | src/addrman.cpp:160-163 | a set is walked in ascending order, every element once |
| AddrManager.ChooseVictim | src/addrman.cpp:160-194 | the first entry due to go, or else the oldest of the four drawn, the first such |
| AddrManager.TerribleIsDue | src/addrman.cpp:42-60 | an entry is due to go unless tried in the last minute if it was seen in the future, never or over 30 days ago, tried three times without success ever, or ten times without success in 7 days |
| AddrManager.WhoGoes | src/addrman.cpp:154-206 | so one tried in the last minute goes only if no other is due; one with a recent success only as the oldest drawn; and one of no use unless another with a lower id is due |
| AddrManager.PickTried | src/addrman.cpp:130-152 | the bucket is swapped as drawn; the place returned is the one the least recently successful of the front entries was drawn from, and holds that entry exactly if its draw left it in place |
| AddrManager.OldestKept | src/addrman.cpp:130-152 | for every full bucket with its least recently successful entry in the second place, draws with which that entry stays and another goes |
| AddrManager.CAddrMan.Find | src/addrman.cpp:85-96 | an address is found exactly if it is known |
| AddrManager.CAddrMan.Create | src/addrman.cpp:98-108 | a new id under which, and nowhere else, the address is known |
| AddrManager.CAddrMan.SwapRandom | src/addrman.cpp:110-128 | two places of vRandom are exchanged, back-pointers included |
| AddrManager.CAddrMan.Erase | src/addrman.cpp:166-173 | an entry is gone from map, address index and vRandom, and no other |
| AddrManager.CAddrMan.ShrinkNew | src/addrman.cpp:154-206 | of the entries due to go the one with the lowest id leaves the bucket, or if there is none the oldest drawn; it is forgotten exactly if that was its last reference |
| AddrManager.CAddrMan.SelectTried | src/addrman.cpp:130-152 | the bucket after the draws, and which entry is at the place returned |
| AddrManager.CAddrMan.PushTried | src/addrman.cpp:226-233 | into a tried bucket with place |
| AddrManager.CAddrMan.ReplaceTried | src/addrman.cpp:235-264 | over a place of a full one; the old entry goes to its own new bucket, or to the one just left |
| AddrManager.CAddrMan.MakeTried | src/addrman.cpp:208-264 | the entry leaves every new bucket and enters its tried bucket, which gives up one entry exactly if full, and which one |
| AddrManager.CAddrMan.MakeRoom | src/addrman.cpp:380-381 | a full bucket loses exactly one entry, the right one |
| AddrManager.CAddrMan.JoinBucket | src/addrman.cpp:376-383 | one more reference in that bucket and no other, unless it is there already |
| AddrManager.CAddrMan.Good_ | src/addrman.cpp:266-327 | the full new state for unknown, tried and new addresses, in numbers: the statistics, the tried bucket the address and port lead to, which entry a full one gives up and where that goes; consistent afterwards exactly unless the time is 0 or below and the address known |
| AddrManager.CAddrMan.EvicteeGivesUp | src/addrman.cpp:130-152 | the entry given up, after four draws: that at the place the first least recently successful of the four was drawn from |
| AddrManager.CAddrMan.Attempt_ | src/addrman.cpp:387-404 | only this entry's last try and attempts change; consistent afterwards exactly unless the time is negative and the address known |
| AddrManager.CAddrMan.Connected_ | src/addrman.cpp:526-544 | only this entry's time changes, and only when it is 20 minutes old |
| AddrManager.CAddrMan.Add_ | src/addrman.cpp:329-385 | the full new state for unroutable, unknown and known addresses, in numbers: what a new entry holds, which news is taken over and when, the odds of one more bucket, and which entry a full bucket gives up; the result tells whether it was unknown; the invariant holds |
| AddrManager.HeardTwice | src/addrman.cpp:338-348 | hearing the same again changes nothing, and no hearing sets a time back |
| AddrManager.CAddrMan.HearAgain | src/addrman.cpp:338-366 | what a known address learns, and when it may join one more bucket |
| AddrManager.CAddrMan.HearNew | src/addrman.cpp:367-373 | a new entry without references yet |
| AddrManager.CAddrMan.GetAddr_ | src/addrman.cpp:510-524 | 23 percent of the entries, at most 2500, all different, and the tables only reordered |
| AddrManager.FindBucket | src/addrman.cpp:293-305 | starting anywhere, a bucket holding the entry is found exactly if there is one |
| AddrManager.ForgetsAtMostOne | src/addrman.cpp:329-385 | adding an address forgets at most one entry: a new one, from the joined bucket, with no other reference |
| AddrManager.RefugeHasRoom | src/addrman.cpp:248-258 | the bucket an evicted entry returns to has room |
| AddrManager.Factor | src/addrman.cpp:361-365 | the loop gives the odds of joining one more bucket, doubling with each reference |
| AddrManager.CAddrMan.Serialize | src/addrman.h:279-317 | the file numbers the new entries, then lists the tried ones and the buckets by number |
| AddrManager.CAddrMan.Unserialize | src/addrman.h:318-378 | reading such a file gives a consistent manager with the same addresses, buckets and counts |
| AddrManager.DumpAndLoad | src/addrman.h:248-380 | written and read, the address book is the same up to renumbering, nothing lost |
| AddrStore.WriteNew | src/addrman.h:283-295 | every new entry is written once and knows its number |
| AddrStore.WriteTried | src/addrman.h:296-306 | every tried entry is written once |
| AddrStore.WriteBuckets | src/addrman.h:307-317 | each bucket is written as the numbers of its entries |
| AddrStore.ReadNew | src/addrman.h:327-339 | the new entries are back under their numbers, indexed |
| AddrStore.PlaceLeft | src/addrman.h:342-359 | a tried bucket always has place for the next entry read, so none is lost |
| AddrStore.ReadTried | src/addrman.h:342-359 | the tried entries are back in their buckets, none lost |
| AddrStore.ReadBuckets | src/addrman.h:361-377 | buckets and reference counts are rebuilt; no reference is refused for exceeding the limit |
| AddrCheck.CheckTried | src/addrman.cpp:482-490 | the tried loop succeeds exactly if the buckets together list each tried id once |
| AddrCheck.CheckNew | src/addrman.cpp:492-504 | the new loop succeeds exactly if every id is in as many buckets as its reference count |
| AddrCheck.CheckEntries | src/addrman.cpp:458-477 | the entry loop succeeds exactly if every entry is sound, and sorts the ids into tried and new |
| AddrCheck.Check_ | src/addrman.cpp:451-507 | the check returns 0 exactly on a sound manager, and else the number of the first thing wrong |
| AddrCheck.ConsistentIsSound | src/addrman.cpp:451-507 | the invariant kept by all operations implies what the check demands |
| AddrCheck.SoundListsAll | src/addrman.cpp:451-507 | a manager that passes the check has vRandom a permutation of its ids, with right back-pointers |
| FastKdf.StepIs | src/neoscrypt.c:2023-2052 | one round byte by byte: the keyed digest of a window is XORed into the salt ring at the sum of its own bytes |
| FastKdf.KdfIs | src/neoscrypt.c:1998-2067 | the key byte by byte: the salt ring from the last position on, XORed with the password, both repeated or cut to 256 bytes |
| FastKdf.StraightIsRound | src/neoscrypt.c:2025-2033 | reading straight through the mirrored tail is reading round the ring |
| FastKdf.RepairMirrors | src/neoscrypt.c:2040-2050 | after XOR and repair of head or tail, the buffer mirrors the XORed ring |
| FastKdf.FillBuffer | src/neoscrypt.c:1998-2020 | repeated and truncated copies fill the buffer with the ring and its mirror |
| FastKdf.NextPosition | src/neoscrypt.c:2035-2038 | the sum of the bytes modulo the ring size |
| FastKdf.XorAndRepair | src/neoscrypt.c:2040-2050 | the in-place XOR and repair keep the mirror |
| FastKdf.Round | src/neoscrypt.c:2023-2052 | one round on the buffers is one round on the rings |
| FastKdf.Emit | src/neoscrypt.c:2054-2067 | the output is the window of the ring XORed with the password ring, also round the end |
| FastKdf.NeoscryptFastkdf | src/neoscrypt.c:1983-2069 | the buffers with mirrored tails compute the function defined on 256-byte rings, for every number of rounds and output length |
| FastKdfOpt.IvIsInitial | src/neoscrypt.c:2080-2084 | the constant is the initial state for 32-byte key and digest |
| FastKdfOpt.TwoCompressions | src/neoscrypt.c:2121-2139 | the two direct compressions are the keyed hash of one block |
| FastKdfOpt.WordSumAt | src/neoscrypt.c:2141-2147 | adding a word and its three shifts adds its four bytes, modulo 256 |
| FastKdfOpt.NextPositionByWords | src/neoscrypt.c:2141-2147 | so the word sums, wrapping at 32 bits, give the byte sum |
| FastKdfOpt.FillFrom80 | src/neoscrypt.c:2100-2117 | the unrolled copies of an 80-byte string fill the ring and its mirror |
| FastKdfOpt.RoundOpt | src/neoscrypt.c:2119-2156 | one optimised round is one round on the rings |
| FastKdfOpt.NeoscryptFastkdfOpt | src/neoscrypt.c:2087-2168 | both parameter sets compute the same function as the reference |
| Blake2s.Blake2sState.Update | src/neoscrypt.c:1905-1933 | after any update the state stands for everything given so far, however it was split |
| Blake2s.Blake2sState.Finish | src/neoscrypt.c:1958-1970 | the digest of everything given |
| Blake2s.NeoscryptBlake2s | src/neoscrypt.c:1935-1973 | the digest of the padded key block and the input |
| Blake2s.KeyedIsRfc7693 | src/neoscrypt.c:1935-1973 | for a key, that is BLAKE2s of section 3.3 of RFC 7693 for messages below 2^32 - 64 bytes |
| Blake2s.UnkeyedPrependsZeros | src/neoscrypt.c:1945-1960 | without a key, a zero block is prepended: it is the RFC's digest for the key of one zero byte with the same initial state |
| Blake2s.UnkeyedDiffers | src/neoscrypt.c:1945-1960 | that is another digest: for every message and initial state a compression function with which it differs from the RFC's |
| Blake2s.FollowsRfcIffKeyed | src/neoscrypt.c:1935-1973 | for messages below 2^32 - 64 bytes and any initial state, it is the RFC's digest for all compression functions if and only if there is a key |
| Blake2s.HashPieces | src/neoscrypt.c:1905-1933 | the digest depends on the concatenation of the pieces only |
| Sha256.Sha256State.Blocks | src/neoscrypt.c:80-103 | whole blocks are folded in |
| Sha256.Sha256State.Update | src/neoscrypt.c:118-145 | after any update the state stands for everything given so far |
| Sha256.Sha256State.Finish | src/neoscrypt.c:147-170 | the hash of the padded message |
| Sha256.PaddingIs | src/neoscrypt.c:147-165 | the padded message in numbers: the message, the byte 0x80, fewest zeros to whole blocks, and its length in bits modulo 2^64 in eight bytes, highest first |
| Sha256.PaddingFits | src/neoscrypt.c:147-165 | one or two last blocks, as it fits, are the padding of section 5.1.1 of FIPS 180-4 |
| Sha256.HashPieces | src/neoscrypt.c:118-170 | the result depends on the concatenation of the pieces only |
| BlkMix.MixOne | src/neoscrypt.c:2192-2205 | the form for r = 1 is the reference mixing |
| BlkMix.MixTwo | src/neoscrypt.c:2207-2230 | the form for r = 2, with its in-place swap, is the reference mixing |
| BlkMix.MixAny | src/neoscrypt.c:2232-2246 | the general form, through the scratch buffer, is the reference mixing |
| BlkMix.NeoscryptBlkMix | src/neoscrypt.c:2178-2246 | all forms compute one function |
| Merkle.BuildMerkleTree | src/main.h:993-1016 | the flat tree holds all levels, odd ones paired with themselves, and ends in the root |
| Merkle.GetMerkleBranch | src/main.h:1038-1052 | the branch is the siblings on the way up |
| Merkle.CheckMerkleBranch | src/main.h:1054-1067 | the climb along a branch |
| Merkle.BranchLeadsToRoot | src/main.h:1038-1067 | for every list and index, the climb from the leaf along its branch ends in the root |
| Merkle.OnlyTheBranchLeadsToRoot | src/main.h:1054-1067 | if the hash has no collision, no other leaf and no other branch of that length does |
| Merkle.FilledRoot | src/main.h:993-1016 | pairing the last node of an odd level with itself is filling the tree up with repeated leaves |
| Merkle.SameLengthSameList | src/main.h:993-1016 | without collisions, lists of one length with the same root are the same list |
| Merkle.SameRootIff | src/main.h:993-1016 | without collisions, two lists have the same root if and only if their filled trees agree at the depth of the lower one |
| Merkle.RepeatedLastLeaf | src/main.h:993-1016 | three leaves, and the same with the last repeated, have one root, for every hash |
| SyncCheckpoints.TraceBack | src/checkpoints.cpp:149-160 | the walk reaches the ancestor at the height, or stays |
| SyncCheckpoints.CheckpointState.ValidateSyncCheckpoint | src/checkpoints.cpp:115-163 | accepted exactly if known, new and a descendant of the current checkpoint; marked invalid exactly if on another branch |
| SyncCheckpoints.CheckpointState.CheckSync | src/checkpoints.cpp:268-298 | a new block passes exactly if its parent descends from the checkpoint; a known one also if it is lower |
| SyncCheckpoints.CheckpointState.AcceptBlock | src/main.cpp:2458-2613 | the check, the chain and the waiting checkpoint: in strict mode outside the initial download an accepted block descends from every checkpoint adopted before, and the main chain keeps having them all; at rest afterwards if and only if nothing is left over |
| SyncCheckpoints.CheckpointState.AcceptChecked | src/main.cpp:2582-2590 | the block after its checks |
| SyncCheckpoints.CheckpointState.WriteSyncCheckpoint | src/checkpoints.cpp:165-191 | the checkpoint moves, or nothing does |
| SyncCheckpoints.CheckpointState.Adopt | src/checkpoints.cpp:474-497 | a valid checkpoint: its block is brought to the main chain, whatever its work, and it is stored; an adopted one is on the main chain; reported as invalid exactly if the chain refuses it, not if it cannot be read |
| SyncCheckpoints.CheckpointState.AcceptPendingSyncCheckpoint | src/checkpoints.cpp:193-253 | a waiting checkpoint is adopted only if acceptable, stored and on the main chain then; on a sound store exactly unless the rules refuse its branch |
| SyncCheckpoints.CheckpointState.ProcessSyncCheckpoint | src/checkpoints.cpp:431-503 | the same for one received, if it is signed; an unknown one waits |
| SyncCheckpoints.SoundGrows | src/main.cpp:2458-2613 | however the tree grows, adopted checkpoints and checked blocks stay what they are |
| SyncCheckpoints.AdoptOneMore | src/checkpoints.cpp:165-191 | the adopted checkpoints stay a chain of descendants, and earlier accepted blocks keep the ones they descend from |
| SyncCheckpoints.StandsOnAll | src/main.cpp:2542-2550 | descending from the last checkpoint is descending from all |
| BlockCreation.Collect | src/main.cpp:4392-4480 | every candidate is in the queue or waits for exactly its parents in the pool |
| BlockCreation.PopBest | src/main.cpp:4310-4330 | the entry taken pays the most per kilobyte when fees decide (the same: has the most priority), and has the most priority when they do not (the same: pays the most) |
| BlockCreation.Admit | src/main.cpp:4507-4556 | admitted exactly if it fits in bytes and operations, connects, and once fees decide pays the minimum or is within the minimum size; fees decide from the first that fits but is past the priority area or has no high priority; sums exact |
| BlockCreation.Release | src/main.cpp:4564-4580 | those whose last parent was just chosen join the queue, once |
| BlockCreation.Consider | src/main.cpp:4495-4582 | one turn of the loop is one greedy step |
| BlockCreation.Choose | src/main.cpp:4392-4582 | dependency sets, dependers and heap together do the greedy choice: each look is at a transaction whose pool parents are all chosen, and no other such pays more when fees decide or has more priority when they do not; until none is left; each once, after its parents, within the limits, with exact sums |
| BlockTemplate.SpendsNoChoice | src/main.cpp:1328-1391 | an input of a chosen transaction is never accepted: its entry is found in the test pool, and what is read from disk at position (1,1,1) is not it |
| BlockTemplate.ChoicesApart | src/main.cpp:4507-4556 | the test pool marks exactly the chosen transactions, and none spends another |
| BlockTemplate.DependentsLeftOut | src/main.cpp:1328-1391 | so no transaction with a parent in the pool is ever chosen |
| BlockTemplate.DependentRefused | src/main.cpp:1328-1391 | a case: the child is refused after its parent was chosen, and connects once the parent is in a block |
| BlockTemplate.TestIsLaw | src/main.cpp:4536-4556 | with the checks of the test pool a transaction is accepted exactly if it is a lawful spender in the next block with all signatures looked at, and adds exactly its fee, operations, marks and entry |
| BlockTemplate.StepMatches | src/main.cpp:1663-1708 | one chosen transaction connects in the block as in the test pool, with the same fee and operations, at whatever position |
| BlockTemplate.BlockFollows | src/main.cpp:1663-1708 | so do any number of them behind the coinbase, as long as the operations are within the limit |
| BlockTemplate.CheckedBlock | src/main.cpp:2398-2456 | the block passes CheckBlock exactly if its coinbase is well formed and has a txid of its own |
| BlockTemplate.TemplateConnects | src/main.cpp:1625-1713 | the rules of ConnectBlock accept the template, wherever it is stored, if and only if it is connectable: coinbase in order, operations within the limit, no txid on unspent outputs; so does the check-only mode |
| BlockTemplate.MaturityRelaxed | src/main.cpp:1488-1493 | a coinbase mature for the test pool is mature one block higher |
| BlockTemplate.NextBlockConnects | src/main.cpp:1625-1740 | with the checks of the node, the template for a tip is accepted as the next block if and only if it is connectable |
| BlockTemplate.ReplayUnmarked | src/main.cpp:1651-1658 | the index of a chain has no entry at position (1,1,1) |
| BlockTemplate.CreateNewBlock | src/main.cpp:4333-4604 | the greedy choice, best first, until nothing that may be looked at is left, behind a coinbase worth exactly subsidy and fees; given out if and only if the rules accept it as a block, wherever it is stored |
| Locator.Set | src/main.h:1486-1504 | the entries are the blocks at the defined distances, then genesis |
| Locator.LocatorIsShort | src/main.h:1486-1504 | a locator has at most 12 entries or 2^(entries - 12) + 9 is at most the height |
| Locator.GetDistanceBack | src/main.h:1506-1525 | the distance returned is the one Set used for the first entry on the main chain |
| Locator.GetBlockIndex | src/main.h:1527-1541 | the first entry on the main chain, or genesis |
| Locator.ResolvesNearFork | src/main.h:1527-1541 | the block found is a main-chain ancestor, at the fork or less than twice as far back; before the last entry the distance counted is exact |
| Locator.ForkOfBranches | src/main.h:1269-1272 | of two branches of one tree, the one leaves the other at their last common ancestor |
| Locator.ResolvesToCommonAncestor | src/main.h:1527-1541 | so a locator leads to a common ancestor, at the last one or less than twice as far back |
| Retarget.CompactLoss | src/bignum.h:292-313 | encoding never raises a number and loses less than one part in 2^15 |
| Retarget.CompactIsStable | src/bignum.h:292-313 | a number that was encoded once is encoded the same again |
| Retarget.SizeUnique | src/bignum.h:303-312 | the size is the least with room for the sign bit |
| Retarget.SpansInOrder | src/main.cpp:1145-1170 | the limits of every height surround the target timespan |
| Retarget.WindowsFit | src/main.cpp:1105-1130 | the averaging windows never reach beyond genesis |
| Retarget.TermsAre | src/main.cpp:1034-1170 | the rules of every height in numbers: spacing, blocks between retargets, timespan aimed at, and limits, on both networks |
| Retarget.ChangesAre | src/main.cpp:1074-1085 | the heights at which the target may change |
| Retarget.MeasuresIt | src/main.cpp:1105-1143 | what is measured, on block times: the last interval, or nine parts of the aim and one of the mean of the last 100 blocks and a fifth of the last 500, rounded as the code does |
| Retarget.MeasureTimespan | src/main.cpp:1112-1143 | the walks give that |
| Retarget.LastRegular | src/main.cpp:1094-1099 | on the test network, the target of the last block that had a regular one |
| Retarget.GetNextWorkRequired | src/main.cpp:1026-1191 | the result in every case, in numbers: genesis, the switch of hash, an ordinary block, the test network's rules, and a retarget, where the new target follows from the time measured, taken at the nearer limit when past it |
| Retarget.Retargeted | src/main.cpp:1105-1191 | the part of a retarget |
| Retarget.TargetAnswers | src/main.cpp:1112-1191 | blocks on time leave the target as it was, slow ones never lower it, and fast ones never raise it |
| Retarget.LaterIsNotHarder | src/main.cpp:1112-1191 | with a later time stamp of the last block, all else equal, the next target is never lower |
| Retarget.SmallForms | src/bignum.h:292-313 | numbers below 2^15 are encoded as their size, one or two bytes, and themselves |
| Retarget.CompactMonotone | src/bignum.h:292-313 | encoding keeps the order of numbers |
| Retarget.Limits | src/main.cpp:53-55 | the two fixed targets as they are encoded |
| Retarget.RetargetIsBounded | src/main.cpp:1172-1191 | a retarget is at most the limit, at most the old target times the greatest factor, and at least the least factor less one part in 2^15 |
| Retarget.NextTargetIsBounded | src/main.cpp:1145-1191 | so is the next target whatever the block times |

## Left out

- ConnectSpec: scripts, signatures, hashes and serialised sizes are parameters or fields; that the hashes of different transactions differ is not assumed.
- Freshness of txids on a branch: the chain-state results assume it of every arriving block; exact undo is false without it.
- Connect.FetchInputs: the memory-pool and miner paths, and `ConnectBlock`'s check-only mode, are not modelled.
- Storage.TxDb.ReadTxIndex: an index read fails only in a spoiled transaction; reads of block files may fail at any time.
- ChainStateMachine.ChainState.SetBestChain: the invalid-work record, time of receipt, wallet and user notifications, and moving transactions between blocks and the memory pool.
- SyncCheckpoints.CheckpointState.AcceptBlock: the checks of header, proof of work, clock, finality, hardened checkpoints and disk space come before it; a block that fails one changes nothing. A waiting checkpoint is not looked at after a block that left reconnects over.
- ChainRun.Run: what operations do to a chain that lags, before a restart: blocks are connected then against an index of another block, and no claim is made.
- ChainStateMachine.ChainState.LoadBlockIndex: check levels above the default, and the work recomputed from the targets; chain work is part of an entry.
- Storage.TxDb.TxnBegin: other users of the database between transactions.
- ImportBatch.CChainImportBatch.Begin: the byte limit of a batch and the eligibility conditions other than the tip are one arbitrary flag per block.
- ChainRun.LoadExternalBlockFile: scanning the file for block boundaries, and the orphan pool; a block whose parent is unknown is passed over.
- AddToBlockIndex's pointers: blocks are named by their hashes, and pnext is a map; a null pointer is an absent entry.
- LmdbTransactions.CLMDBTransaction.Write: the class is sequential, with other threads' leases as one arbitrary number; interleavings are in LmdbGate.
- LmdbTransactions.CLMDBTransaction.CommitOrGrow: the log is cleared when the commit publishes, a moment earlier than in the code.
- LmdbTransactions.CLMDBEnv.GrowMap: waiting for transactions to end is modelled as their having ended.
- LmdbGate.NoDeadlock: each thread has at most one transaction; one that held a lease for reading while it grew the map for its own write would wait for itself.
- LMDB environments opening and closing, flags, statistics, and the byte layout of pages.
- PrefixScan.CLMDBIterator.Next: a cursor reads a fixed snapshot; writes through the same transaction while it is open are not modelled.
- WalletStore.WalletDir.RewriteWalletLMDB: a crash ends the process between or inside steps; loss of power with unsynced writes is not modelled.
- Waiting for open wallet handles before a rewrite, and the switch that disables LMDB wallets.
- Berkeley DB's own rewrite and recovery, wallet backups, and the tests' failure switches.
- AddrManager.CAddrMan.Good_: times do not wrap at 32 bits.
- AddrManager.CAddrMan.Unserialize: files written with another number of new buckets, which are read with no limit on bucket sizes; the version byte and byte format.
- Selection probabilities of the address manager (Select_, GetChance).
- AddrManager.DumpAndLoad: both ends work on values of the file, not on its bytes, and its checksum is not modelled.
- FastKdf.NeoscryptFastkdf: passwords shorter than 64 and salts shorter than 32 bytes are excluded; the node uses 80 and more.
- FastKdfOpt.NeoscryptFastkdfOpt: only r = 2, that is salts of 80 and 256 bytes, which is what the node uses.
- Blake2s.KeyedIsRfc7693: the upper word of the byte counter is not kept by the code, so longer messages are excluded.
- HMAC, PBKDF2, the outer NeoScrypt loop, the compression rounds and assembly variants.
- BlockCreation.Choose: priorities and fee rates are integers, and the branch for a previous transaction found neither in the index nor in the pool is not modelled.
- BlockTemplate.CreateNewBlock: the coinbase script, header fields and options; that the bytes at (1,1,1) are not a transaction of the pool is assumed, and that a block has a time after April 2012.
- SyncCheckpoints.CheckpointState.ProcessSyncCheckpoint: signatures and the success of the write are flags, relaying and asking peers is left out, and so are automatic selection and reset of checkpoints.
- Retarget.GetNextWorkRequired: the 32-bit wrap of timespans and the byte buffers of the big-number encoding; negative stored targets are excluded, as proof of work excludes them from every block.
- Base58, locked memory pages, the memory pool, the orphan pool, alerts and the peer protocol: independent of the rest, and easier.
