# Kortho node: a verified model

Kortho is a small blockchain node. An etcd-raft log feeds blocks into a ledger kept in a key-value
store, a transaction pool packs the blocks, and a small token language runs inside transactions. This
project models that logic in Dafny 4.11 and proves what it promises. `dafny verify dfyconfig.toml`
checks all of it.

Each component is modelled in the form the program gives it. What the program updates in place is a
class whose methods carry the same branches and loops (`RaftNode`, `Blockchain`, `StoreTx`, `Txpool`,
`Exec`, `ScriptLex`, `Parser`, `Record`, `Txn`, `ListTxn`), or an array algorithm (`Qsort`,
`ReverseInPlace`). Each such method is proved equal to a function, and the results below are about
those functions. Machine integers are explicit: `uint64` addition, subtraction and conversion wrap as
they do in Go, and where a result needs them not to wrap, that is proved.

## Where to start

| question | files |
|---|---|
| Is every block applied exactly once, through crashes, re-delivery and recovery? | RaftSpec, RaftSafety, RaftTears, RootTest, RaftStore, RaftLocal, RaftNode |
| Do the snapshots hold the log, and does recovery arrive? | RaftSnapshots, RaftRecovery, RaftCatchUp, RaftIndices, Multiples |
| Is money conserved and bounded, from the log down to the balances? | Rewards, Payouts, Ledger, Conservation, Prediction, NodeLedger, MapSum |
| Are nonces and locks sound over whole runs of pooling, packing and committing? | TxHeap, TxPool, PoolAccounts, Packing, PoolOrder, Chain |
| Do Base58 texts and addresses come back? | Radix, Base58, Address |
| What do scripts mean, from bytes to the store, and from the log to the tokens? | LexSpec, LexLaws, Lexer, ParseSpec, ScriptParser, Script, Codec, TokenExec, PrintedScripts, EmptyIds, TokenRuns, BlockTokens |
| Trees, sorting, storage | Merkle, Qsort, Frequent, BgStore, BgList |

## Where the program does not do what one would expect

Each of these is a lemma with the exact condition, or a concrete case.

- A crash in the middle of a block leaves scripts flushed whose block is not committed, and they run
  again when it is handed over again (`RaftTears.RedeliveryIff`). Only the test of the script roots
  keeps a mint from counting twice (`RaftTears.MintCountsTwice`): it stops the node instead, on a log
  that could be replayed (`RaftStore.TornMintStops`). With it no node ever goes on with a wrong
  contract store (`RaftStore.StoreIsRight`).
- A lock made on one node stops it at a block the others take, where some transaction of the block no
  longer fits beside the lock (`RaftLocal.LockedNodeIff`).
- The hard state goes to the write-ahead log as raft gives it, even when not all entries up to its
  commit index were handed over; a restart then skips the rest (`RaftSafety.PersistedAheadLoses`).
- A node whose saved commit index is `snapCount` or more past its own last snapshot, or behind it, is
  not recovered: it panics, or goes on without the blocks it missed
  (`RaftRecovery.RecoveryReachesTheTarget`, `RaftRecovery.GapAfterSetback`), unless just those come
  again (`RaftRecovery.RepeatedBlockCloses`). Entries handed over in
  pages bring a node into that state (`RaftRecovery.PagesLeaveTheSavedIndexBehind`,
  `RaftRecovery.PagesHappen`). The etcd version named in `go.mod`, 3.3.10, is not part of the
  repository; as far as is known it hands over all committed entries at once, and paging came with
  3.4. So these two are about what this node would do with pages, not about what that version sends.
- A node that is only set back by a recovery writes no snapshot files any more, since its raft storage is
  moved to the leader's snapshot all the same (`RaftCatchUp.SetBackWritesNoFiles`,
  `RaftCatchUp.NoMoreFiles`). And one that crashes after a recovery, before the hard state is saved, has
  files past its saved commit index: the restart is refused (`RaftCatchUp.CrashAfterRecovery`).
- Packing sets aside the amounts, not the fees of transactions without a script, so a sender can fall
  below its lock, or its balance wrap around (`PackingRules.FeeIsNotSetAside`, `Chain.KeepsLockIff`).
  Any fee can come in by `RecepTx` (server/server.go:313-335) or by gossip (p2p/node/node.go:58-64).
- `CalculationResults` predicts neither the rewards of a block nor fees without a script
  (`Prediction.PredictionOff`).
- Each committed block takes up to half of the transactions it did not use out of the pool, and loses
  those that are ten seconds old (`TxPool.FilterForgets`).
- An unscripted transaction with a fee loses the fee (`Conservation.BlockConservation`), and a
  payment to oneself creates money (`Conservation.SelfTransferCreates`); so does a token transfer to
  oneself (`TokenRuns.TransferConservesIff`).
- An address shorter than 47 characters does not give its key back (`Address.AddressRoundTrip`).
- A script list that uses a token it has just created fails (`TokenExec.ExecuteIsDirect`).
- After a lexical error the parser reads on, so there can be two calls (`ParseSpec.MoreCallsIff`).
- The Merkle tree says no to an item that occurs twice, and yes to the two digests under its root
  (`Merkle.VerifyNodeIffOnce`); and an item that begins with a digest lets the digested text pass
  (`Merkle.ForgedPath`).
- `TxHeap.Less` has cycles, and the heap can pop a sender's nonces out of order
  (`TxHeaps.CycleIff`, `PoolOrder.HeapKeepsWrongOrder`); so can deleting from the middle of it
  (`PoolOrder.FilterCanBreakOrder`). Then, or when a script fails, a block can carry a nonce with the
  one before it missing (`PoolOrder.GapIff`, `PoolOrder.RefusedScriptLeavesGap`).
- `Less` compares nonces as int64, so that one of 2^63 or more goes before all smaller ones of its
  sender (`TxHeaps.PopsIncreasing`, `PoolOrder.HighNonceGoesFirst`).
- The executor accepts a token with the empty id. No root can be taken of what it has to write then,
  so that a leader packing such a transaction, and a node testing its block, panics; and the store
  refuses the empty key, with everything written along with it (`EmptyIds.PackPanicsIff`,
  `EmptyIds.EmptySymbolPanics`, `EmptyIds.RootlessIff`).
- A second push-back of a character in the lexer brings a zero byte (`Lexer.ScriptLex.Ungetc`); the
  lexer itself never does that.
- A list can overwrite an element of another list with a shorter name (`BgList.MetaKeyCollides`).

## What is assumed

- Raft hands over entries of one committed log, consecutively indexed and without a gap behind what
  the node has been handed, and snapshots taken from that log (`RaftSafety.Delivery`). The results
  about snapshots also assume leaders that answer with the snapshot they were asked for
  (`RaftSnapshots.Honest`), and those about agreeing indices and even spacing that entries decode and
  that a hard state names the last entry handed over (`RaftSnapshots.Prompt`).
- Terms never fall along the log, and a snapshot bears the term of its last entry
  (`RaftRecovery.TermsGrow`).
- The results about nonces over runs assume that each sender's transactions are popped in strictly
  increasing nonce order (`TxHeaps.Increasing`) and that no script fails while packing; beyond that
  only that there are too few operations for a nonce to reach 2^64.
- What is said of packed, waiting and dropped transactions is for balances and amounts below 2^63 and
  covered locks (`PackingRules.Healthy`, `PackingRules.Small`), which admission and `Chain.RunIsSound` give.
- The result about locks and money over runs assumes that senders and receivers differ, which the
  server and the client make sure of (rpcclient/rpcclient.go:233, server/server.go:329) but gossip does
  not, and that packed amounts and fees fit in what is free (`Chain.WithinFree`).
- Hashes do not collide on the finite set of strings a result is about (`Merkle.CollisionFree`), and
  have one length; for the contract store that is whatever the scripts of the log could write
  (`RootTest.NoCollisions`).
- Token ids do not begin with one of the store's key prefixes (`TokenExec.PlainId`).
- Signatures and checksums are parameters, and so are `checkBlock` and `VerifyBlcok`, as one test of a
  block. A result that needs to know more of the test says what: that it tests the root of every script
  (`RaftStore.TestsRoots`), or that it asks of every transaction what the pool asks and otherwise looks
  at balances and contract store only (`RaftLocal.Tests`).

## Model

| member | source | states |
|---|---|---|
| `RaftSafety.ExactlyOnce` | raftconsensus/node.go:290-436 | Over every run of Ready batches, re-deliveries, recoveries, crashes inside a Ready and in the middle of committing a block, panics on a block, restarts after either, and locks, unlocks and nonce records written between Readys: the ledger, of a running node or on disk, has booked each block of the log handed over exactly once, in consecutive heights, and its locks have changed by locking and unlocking only; its contract store is that of a plain replay if every block torn by a crash mends and has been committed again; a running node's `lastHeight` is the stored height; and a node stops on a block only if the log, with what has happened to this ledger, cannot be replayed that far |
| `RaftSafety.RunsAreSafe` | raftconsensus/node.go:290-333 | Every step keeps: the ledger, in memory or on disk, is one replay of the log as far as it was handed over, torn where crashes have torn it and changed locally where it was; neither saved commit index is ahead of it; only a block about to be committed can be torn; and a panic on a block is at the first entry that cannot be replayed |
| `RaftSafety.CommitSlice` | raftconsensus/node.go:346-436 | Committing any stretch of the log that leaves no gap, re-delivered in part or whole and with entries that do not decode among them, brings the ledger to the replay of everything up to its end; it panics if and only if that replay does |
| `RaftSafety.ApplyEntryReplays` | raftconsensus/node.go:351-434 | One entry changes ledger and height as its replay does, or not at all if its index is already committed; the commit index never passes the entry's |
| `RaftSafety.StaleEntry` | raftconsensus/node.go:374-378 | An entry that has been replayed is stale ever after: replaying it again changes nothing |
| `RaftSafety.HeightsContiguous` | raftconsensus/node.go:374-409 | The blocks of a replayed ledger have heights h+1, h+2, …, and its height counts each of them once |
| `RaftSafety.ReplayCommits` | raftconsensus/node.go:374-409 | Without torn blocks a replayed ledger is the commit of these blocks, one after the other |
| `RaftSafety.BookedOnce` | blockchain/blockchain.go:279-367 | Torn or not, locked or not: balances, nonces and height of a replayed ledger are those of its blocks, each booked once |
| `RaftSafety.LocalChangesKeepBooks` | blockchain/blockchain.go:454-476 | Where the log can be replayed with the local changes and without them, both give the same height, balances, nonces and contract store |
| `RaftSafety.LocksStay` | blockchain/blockchain.go:784-834 | No block changes a lock, and no crash: locks are changed by locking and unlocking only |
| `RaftLocal.AskingIsHarmless` | txpool/txpool.go:342-348 | As long as no lock changes, a node takes exactly the blocks it would have taken had nobody written a nonce record, and has the same books, locks and contract store |
| `RaftLocal.AdmitsAfter` | txpool/txpool.go:354-379 | With locks covered, a local change makes an admitted transaction inadmissible if and only if it takes more from what the sender may spend than amount, or script fee, leave; unlocking and asking for a nonce never do |
| `RaftLocal.LockedNodeIff` | raftconsensus/node.go:382-390 | Handed a block it would have taken, a node on which a balance was locked or unlocked just before goes on if and only if every transaction of the block still fits; otherwise it stops at this block, and that takes a lock |
| `RaftSafety.TearIff` | raftconsensus/node.go:346-436 | A crash in the middle of a block changes the ledger in front of the block, and what follows it if and only if committing the block again over what the crash left comes out differently |
| `RaftSafety.MendedIsReplay` | raftconsensus/node.go:346-436 | If every torn block mends, the ledger is a plain replay wherever no block is half committed |
| `RaftTears.MendsIff` | contract/exec/exec.go:69-79 | A torn block mends if and only if it passes again and its scripts make the same store of what the crash left as of the store before, or it cannot be committed at all |
| `RaftTears.RedeliveryIff` | blockchain/blockchain.go:325-366 | Handing the block over again gives the ledger it would have given without the crash if and only if the block passes again and running its scripts on the half-written contract store gives the same tokens |
| `RaftTears.ScriptFreeReplay` | blockchain/blockchain.go:325-366 | In a log without scripts no crash leaves a mark: without local changes the ledger is the plain replay, with them it has the same books and contract store |
| `RaftTears.MintTwice` | contract/exec/exec.go:110-145 | Running a minting block's script over what a crash left adds the amount a second time |
| `RaftTears.MintCountsTwice` | contract/exec/exec.go:110-145 | A block that mints does not mend: but for the test of its root it would mint twice |
| `RaftTears.PrintedMints` | rpcclient/rpcclient.go:392-392 | The text the client prints to mint makes such a block |
| `RootTest.RootBindsOverlay` | contract/exec/exec.go:52-67 | Two overlays with equally many keys have the same root only if they are the same, unless the hash collides on what is in their trees |
| `RootTest.OverlayTells` | contract/exec/exec.go:82-258 | A script that writes the same on two stores has read the same of both: owners, freezes and every balance it looked at |
| `RootTest.RootHoldsIff` | blockchain/blockchain.go:868-885 | A transaction whose root is right on one store passes the test on another if and only if its script reads the same of both |
| `RootTest.TornPasses` | blockchain/blockchain.go:325-366 | A block torn after any number of its scripts that passes the test again makes the same store of what the crash left as of the store before, or panics on both |
| `RaftStore.StoreIsRight` | raftconsensus/node.go:374-409 | Over every run whatever, with the root test: but for locks and nonce records the ledger is that of its blocks committed one after the other, contract store included; or, right after a crash in the next block, that ledger with the scripts flushed before the crash |
| `RaftStore.TornMintStops` | blockchain/blockchain.go:868-885 | Torn behind its script, a block that mints is not committed again: the node stops on it, though the log could be replayed |
| `BlockTokens.NodeTokens` | raftconsensus/node.go:346-436 | So over every run of such a node, unless a crash has just torn the next block, its contract store is what the token scripts of its blocks make of the first store, each run once and in order |
| `BlockTokens.NodeSupply` | contract/exec/exec.go:82-258 | And the balances of each token on it sum to what they summed to at first and what the mint commands in its blocks add, if nobody transfers to himself and the sums fit in 64 bits |
| `BlockTokens.BlockRuns` | blockchain/blockchain.go:325-345 | The scripts of a block run as the token transactions they parse to, one after the other, each with full effect or none |
| `RaftSafety.NodesCommitInOrder` | server/server.go:976-987 | Committing a block of the next height stores exactly that height, and half committing it changes none, so real nodes meet the assumption of the replay results |
| `RaftSafety.RecoverKeeps` | raftconsensus/node.go:491-659 | A recovery, finished, broken off or crashed, leaves a ledger that is the replay of the log with what crashes have torn, and the persisted commit index untouched |
| `RaftSafety.MissingIs` | raftconsensus/node.go:661-671 | What a node at index c is given out of a genuine snapshot is entries c+1 to its end, if and only if the snapshot reaches back that far and ends later |
| `RaftSafety.PersistedAheadLoses` | raftconsensus/node.go:155-165 | A node restarted with a saved commit index ahead of its ledger has, after everything is handed over again, the right ledger if and only if no entry between the two carries a new block |
| `RaftSnapshots.SnapshotsTileTheLog` | raftconsensus/node.go:325-467 | Over every run with honest leaders `snapshotIndex` is a multiple of `snapCount` and the snapshot files alone rebuild exactly the log up to it; and it is at most `committedIndex` provided the saved commit index was not behind it whenever a snapshot came in |
| `RaftSnapshots.IndicesAgree` | raftconsensus/node.go:290-333 | When entries decode and raft hands over all it has committed at once, that proviso is met: after every step the persisted, the saved and the node's commit index agree and are not behind the snapshot index |
| `RaftSnapshots.TilesRebuildTheLog` | raftconsensus/node.go:831-845 | Snapshots each of which starts where the one before ends, or earlier, put together by skipping what is already there, give the log |
| `RaftSnapshots.EntriesReach` | raftconsensus/node.go:346-436 | Decodable entries without a gap move the commit index exactly to their end, and nothing else but ledger and height |
| `RaftSnapshots.TriggerTiles` | raftconsensus/node.go:438-467 | A snapshot the node takes itself starts exactly where the last one ended and keeps the invariant of the indices |
| `RaftSnapshots.AnswerChains` | raftconsensus/node.go:571-613 | Every accepted answer brings the node exactly `snapCount` nearer to the target and adds one genuine file; every other answer leaves its snapshot index |
| `RaftSnapshots.ChaseChains` | raftconsensus/node.go:537-618 | The chain of fetched snapshots is spaced by `snapCount`, tiles the log and stops below the target |
| `RaftSnapshots.RecoverChains` | raftconsensus/node.go:491-659 | A recovery whose snapshot index ends at the target has committed exactly up to the target; the files still tile the log, and the indices stay in order if the saved commit index was in order |
| `RaftSnapshots.RestartTiles` | raftconsensus/node.go:139-170 | A restart from any files a run can leave is refused if the commit index is below the last snapshot, and otherwise finds all indices in agreement |
| `RaftCatchUp.SnapshotsAreEven` | raftconsensus/node.go:325-332 | With batches of at most `snapCount` entries, over any run with recoveries from such leaders, crashes, panics and restarts: a node has one snapshot for every full `snapCount` entries it has committed, number i is entries i·snapCount to (i+1)·snapCount, and no restart is refused |
| `RaftRecovery.HandleSnapFinds` | raftconsensus/noderpc_server.go:48-87 | A leader that keeps up finds, under every index asked for, exactly the snapshot of that stretch of the log, if and only if its term is among the terms it looks under |
| `RaftRecovery.RightAnswers` | raftconsensus/node.go:529-618 | As terms never fall along a log, asking from the term of the own last snapshot up to that of the target gets every piece in between |
| `RaftRecovery.RecoveryReachesTheTarget` | raftconsensus/node.go:491-659 | Recovery from such a leader, over any distance, ends at the leader's snapshot if and only if the saved commit index is the node's own last snapshot and less than `snapCount` entries more; then its ledger is the one direct application gives. Otherwise the node is set back to the saved commit index, and panics if and only if both its own last snapshot is more than `snapCount` and the saved index is at least `snapCount` short of the leader's snapshot; else it goes on |
| `RaftCatchUp.FedKeepsUp` | raftconsensus/node.go:290-333 | One Ready with a snapshot of such a leader, and entries behind it, leaves a node keeping up as before: commit indices agree, the files are the log but for less than `snapCount` entries, and the raft storage begins right behind them, `firstIndex == snapshotIndex + 1` |
| `RaftCatchUp.RecoveredGoesOn` | raftconsensus/node.go:320-328 | So a recovered node goes on: the Ready that brings it `snapCount` entries past its last file writes exactly the file of these entries |
| `RaftIndices.FilesAfter` | raftconsensus/node.go:438-467 | Whatever the batch: a Ready without a snapshot adds one file, with everything from the last one up to the last multiple of `snapCount`, if `snapCount` entries have gathered and saving succeeds; otherwise it changes neither files nor indices of files |
| `RaftCatchUp.SetBackWritesNoFiles` | raftconsensus/node.go:290-293 | A recovery that does not arrive moves the raft storage past the node's files all the same |
| `RaftCatchUp.NoMoreFiles` | raftconsensus/node.go:831-837 | Such a node writes no file any more, whatever it is handed, until the next snapshot |
| `RaftCatchUp.CrashAfterRecovery` | raftconsensus/node.go:290-306 | After a crash in a Ready with a snapshot, before the hard state is saved, the restart succeeds if and only if the snapshot was no newer than what the node had committed |
| `RaftCatchUp.RecoveryBreaksOff` | raftconsensus/node.go:537-618 | A recovery that is answered with a failed call, or with data that do not decode, after the pieces up to an index panics there; and a crash while it waits for the next answer finds it there too |
| `RaftCatchUp.BreaksOffAt` | raftconsensus/node.go:537-618 | And then stands exactly at that index, with the ledger and the files of the log up to there |
| `RaftCatchUp.IdleIsNothing` | raftconsensus/node.go:571-576 | An answer without data is as if it had not been given |
| `RaftIndices.UnsavedPiece` | raftconsensus/node.go:590-613 | A piece that cannot be saved is committed all the same, and ends the chain; more than `snapCount` short of the target that is a panic |
| `RaftIndices.NothingToRecover` | raftconsensus/node.go:491-513 | A Ready with an empty snapshot is one without; a snapshot without entries, or with none the node lacks, only moves the raft storage |
| `RaftIndices.CommittedLags` | raftconsensus/node.go:351-434 | How far committing takes the commit index whatever is among the entries: it stays behind by one for each entry that does not decode since the last one that moved it to its own index |
| `RaftIndices.SavedIndices` | raftconsensus/node.go:298-317 | A hard state goes to the write-ahead log as given, and to the raft storage with the smaller of its commit index and the node's; without one both stay |
| `RaftIndices.RunsSaveBehind` | raftconsensus/node.go:290-333 | Over every run what the raft storage has saved is never ahead of what the node has committed |
| `RaftRecovery.GapAfterSetback` | raftconsensus/node.go:290-436 | What going on so comes to, once the entries behind the leader's snapshot are handed over: the node replays them over a ledger without the blocks between. Nothing is lost if there was no new one; otherwise, unless a block of the missing height comes again, the node panics exactly at the first new block, and its ledger is wrong until then |
| `RaftRecovery.RepeatedBlockCloses` | raftconsensus/node.go:374-409 | If a block of the missing height does come again before a newer one, and makes of the node's ledger what the log had made of it, the ledger is right from there on |
| `RaftRecovery.PagesLeaveTheSavedIndexBehind` | raftconsensus/node.go:310-332 | On a node whose saved commit index is less than `snapCount` past its last snapshot, a Ready that carries entries but no hard state and triggers a snapshot leaves that index behind the snapshot |
| `RaftRecovery.PagesHappen` | raftconsensus/node.go:310-332 | Such a Ready on a fresh node, with the snapshot it takes |
| `RaftNodes.RaftNode.CommitEntries` | raftconsensus/node.go:346-436 | The loop over the entries, updating fields and ledger in place, computes the specification's commit; it panics exactly where that does, and leaves just what was committed and flushed before |
| `RaftNodes.RaftNode.MaybeTriggerSnapshot` | raftconsensus/node.go:438-467 | New snapshot file and indices, or nothing changed on any error |
| `RaftNodes.RaftNode.FetchMissing` | raftconsensus/node.go:537-618 | The fetching loop, answer by answer, ends as the specification's chain does, breaks, panics and crashes included; an answer without data is asked for again |
| `RaftNodes.RaftNode.RecoverSnapshotData` | raftconsensus/node.go:491-659 | The whole recovery on the object, with its early returns, the reset of the commit index and its panics |
| `RaftNodes.RaftNode.HandleReady` | raftconsensus/node.go:290-333 | One Ready on the object: recover, commit, save the hard state as given and the lowered one, perhaps take a snapshot |
| `RaftNodes.RaftNode.CrashInReady` | raftconsensus/node.go:290-310 | A Ready broken off by a crash after any entry, or in the middle of a block with the scripts of some of its transactions flushed |
| `RaftNodes.RaftNode.Start` | raftconsensus/node.go:139-170 | Indices from the files, height from the ledger |
| `NodeLedger.NodeCirculation` | raftconsensus/node.go:346-436 | A node started at genesis, after any run, crashes in the middle of blocks and panics included, holds balances below 2^63 in all and the height of the blocks it applied, if those blocks carry the scheduled rewards and their senders can pay |
| `NodeLedger.CommitAllRuns` | blockchain/blockchain.go:279-367 | Committing blocks one by one as a node does is the run of blocks the money results are about |
| `NodeLedger.PackedIsNext` | server/server.go:964-993 | The block a leader packs is the next one for every node with its ledger: it is tested, and committed as the leader's round would have it, with the height moved on by one |
| `Rewards.Distr` | blockchain/blockchain.go:369-433 | The three loops pay what the reward schedule says, order by order |
| `Rewards.EpochAmount` | blockchain/blockchain.go:373-380 | The first loop reaches four fifths of the amount of the epoch before, x times over |
| `Rewards.BlockRewardsBound` | blockchain/blockchain.go:369-433 | The rewards of a block never exceed its epoch's amount, and rounding keeps back less than one unit per order and four more |
| `Payouts.BlockPays` | blockchain/blockchain.go:408-431 | What each address gets of a block: four tenths of the epoch's amount as its miner, four tenths as `cm`, one tenth as `ds` (two without orders), and one share of a tenth for each verified order that names it |
| `Payouts.BlockCredits` | blockchain/blockchain.go:320-323 | So much its balance grows by the block's reward transactions |
| `Payouts.EpochFalls` | blockchain/blockchain.go:373-380 | The epoch's amount begins with 49460000000 and falls by a fifth each epoch, rounded down |
| `Rewards.IssuedSoFar` | blockchain/blockchain.go:369-380 | Closed bound on everything issued below a height, epoch by epoch |
| `Rewards.IssuanceBound` | blockchain/blockchain.go:369-433 | All rewards over all heights are at most 5·31536000·49460000000, and with the genesis credit below 2^63 |
| `Ledger.StoreTx.SetMinerAccount` | blockchain/blockchain.go:181-197 | Credits an account, creating its record |
| `Ledger.StoreTx.SetAccount` | blockchain/blockchain.go:628-656 | Moves the amount, takes the fee, sets the nonce; reading both balances before writing either |
| `Ledger.Blockchain.AddBlock` | blockchain/blockchain.go:279-367 | The ledger after a block, written record by record; after a panic, the ledger before with the scripts flushed up to the one that panicked |
| `Ledger.Blockchain.CrashInAddBlock` | blockchain/blockchain.go:325-364 | What a crash in that loop leaves: the scripts of the transactions before it, or up to the first that panics, are in the contract store, and nothing else |
| `Ledger.Blockchain.GetNonce` | blockchain/blockchain.go:454-476 | An account without a record gets one with nonce 1 |
| `Ledger.Blockchain.LockBalance` | blockchain/blockchain.go:784-811 | Result and new lock, with the wrap-around of the sum |
| `Ledger.Blockchain.UnlockBalance` | blockchain/blockchain.go:813-834 | Result and new lock |
| `Ledger.Blockchain.CalculationResults` | blockchain/blockchain.go:836-866 | The balances predicted by the loop over the transactions |
| `Ledger.LockIff` | blockchain/blockchain.go:784-834 | Locking succeeds if and only if the mathematical sum is within the balance, despite wrap-around, when locks were covered; both operations keep every lock within its balance |
| `Ledger.UnlockIff` | blockchain/blockchain.go:813-834 | Unlocking succeeds if and only if the amount is within the lock, and takes off just that; nobody else's lock changes |
| `Prediction.PredictionOff` | blockchain/blockchain.go:836-866 | For every block and every account, modulo 2^64: the balance written is the one predicted, the reward credits, and the stated sum of what the prediction misses of fees and self-payments; so they agree if and only if these two cancel. Predictions name exactly the accounts taking part |
| `Prediction.PredictionAgrees` | blockchain/blockchain.go:836-866 | For transactions between different accounts with neither fee nor script, the predicted balance is the written one for exactly those accounts to which the block's reward transactions give nothing, modulo 2^64 |
| `Conservation.TransferSum` | blockchain/blockchain.go:628-656 | One transaction changes the sum of all balances, modulo 2^64, by minus its fee, or by plus its amount if sender and receiver are the same |
| `Conservation.BlockDelta` | blockchain/blockchain.go:325-364 | For every block whatever, the exact change of the sum of balances modulo 2^64 |
| `Conservation.BlockConservation` | blockchain/blockchain.go:325-364 | When senders are funded and differ from receivers, a block changes the sum of balances by exactly its reward transactions if and only if no unscripted transaction carries a fee |
| `Conservation.FeesMove` | blockchain/blockchain.go:325-364 | Account by account: the sender pays amount and fee, the receiver gets the amount, the fee of a scripted transaction goes to `minaddr`, and nobody else's balance changes |
| `Conservation.FundedTx` | blockchain/blockchain.go:628-656 | Carrying out a funded transaction, no addition or subtraction wraps around, neither the miner's fee nor either side of the transfer |
| `Conservation.SelfTransferCreates` | blockchain/blockchain.go:628-656 | Paying oneself creates the amount |
| `Conservation.GenesisCirculation` | init.go:119-133 | The genesis credit is the whole money of the first state |
| `Conservation.CirculationStep` | blockchain/blockchain.go:279-433 | A funded block with the scheduled rewards keeps the total within genesis and issued rewards |
| `Conservation.CirculationOverRuns` | blockchain/blockchain.go:279-433 | Over every run of funded blocks the sum of balances stays below 2^63 and the stored height counts the blocks |
| `TxPool.Txpool.Pendings` | txpool/txpool.go:166-303 | The loop over what the heap pops computes the packing rule until the block is full, changes no nonce, and clears its notes; half of what is deferred is taken out of the queue, and put back into the list if it is less than ten seconds old; it panics if and only if the rule does |
| `TxPool.Txpool.DecideTx` | txpool/txpool.go:204-271 | Which of pack, defer or drop happens to a transaction, or that its script or the root of it makes Go panic |
| `PoolAccounts.RestGoes` | txpool/txpool.go:181-274 | For every list of transactions that is popped: packed, in order, are exactly those next in line whose scripts run, the queue gets exactly those ahead of the line, and the rest are dropped; which is decided by the transactions popped before alone |
| `PoolAccounts.PendingsAccounts` | txpool/txpool.go:166-303 | One call in multisets: list and queue before are what is packed, what is dropped, what is taken from the queue ten seconds old, and list and queue after; half of the queue stays in it, and a block has at most 500 |
| `PoolAccounts.NextUpIsPacked` | txpool/txpool.go:204-271 | Whatever is popped around it, with a script or without: a transaction next in line that can be paid and whose script runs is packed |
| `TxPool.Txpool.Filter` | txpool/txpool.go:418-458 | Deleting in place while going through the list leaves exactly the transactions not replaced; then half of them, popped, are put back only if young |
| `TxPool.FilterKeeps` | txpool/txpool.go:418-458 | The list stays in good order if what is left of it after the deletions is still a heap |
| `PoolOrder.FilterCanBreakOrder` | txpool/txpool.go:418-458 | It need not be: a list of ten in good order of which a block takes two, and what is left has a sender's higher nonce popped first |
| `TxPool.FilterRemovesCommitted` | txpool/txpool.go:418-437 | What is taken out is exactly what has a sender and nonce of the committed block |
| `TxPool.FilterForgets` | txpool/txpool.go:438-457 | Whatever the block: of the n transactions it did not use, all but n/2, rounded down, are taken out, and of these exactly the ones ten seconds old are lost; if all are that old, n/2 remain |
| `TxPool.Txpool.Add` | txpool/txpool.go:146-164 | What is refused and for which reason; what is added is timed and pushed on the heap |
| `PoolAccounts.AddsExactly` | txpool/txpool.go:146-164 | A transaction is added if and only if at most 1500 are listed, it is well formed, nonce and room of its sender allow it, its nonce is not listed and fewer than fifty of its sender are; then the list has it, timed, beside all it had, and otherwise is as it was |
| `TxPool.Txpool.Check` | txpool/txpool.go:65-81 | Yes if and only if the sender has no transaction with the nonce and fewer than fifty in all |
| `TxPool.AddKeeps` | txpool/txpool.go:146-164 | Adding never makes a double; and it keeps the heap in good order if each sender's nonces, as int64, grow with time, not two in one second, and no sender has nonces on both sides of 2^63 |
| `TxHeaps.CycleIff` | txpool/txpool.go:29-39 | `Less` has cycles of three, and they are exactly: two transactions of one sender against their nonces, as int64, in time, with another sender's between them |
| `TxHeaps.PopsIncreasing` | txpool/txpool.go:29-39 | If each sender's nonces, as int64, grow with time, the heap pops every transaction once and each sender's in that order; so by increasing nonces if and only if no sender has nonces on both sides of 2^63 |
| `PoolOrder.HighNonceGoesFirst` | transaction/transaction.go:72-75 | Nonces 1, 2 and 2^63 of one sender, all admitted at chain nonce 1, are popped with 2^63 first; 1 is dropped and 2 packed alone |
| `PoolOrder.HeapKeepsWrongOrder` | txpool/txpool.go:25-54 | Nonces 3 and 2 of one sender, added in that order with two others between, are popped in that order |
| `PoolOrder.TiesStay` | txpool/txpool.go:25-54 | Of transactions of one second a new one does not pass an older one, and the left one of two comes up first |
| `PackingRules.ConsiderInLine` | txpool/txpool.go:181-274 | One popped transaction, packed, deferred or dropped, keeps every sender's packed nonces consecutive from the chain nonce |
| `PackingRules.PackedInLine` | txpool/txpool.go:166-274 | Popped by increasing nonces and with no script that fails, each sender's packed nonces are n, n+1, … from the chain nonce, whatever amounts, fees, balances and receivers |
| `PackingRules.PackedWithinFree` | txpool/txpool.go:166-274 | Popped in whatever order, each sender's packed amounts sum to at most balance minus lock |
| `PackingRules.QueueDoesNotMatter` | txpool/txpool.go:266-290 | What earlier rounds left in the queue does not change what is packed |
| `PackingRules.NextInLine` | txpool/txpool.go:204-271 | A transaction whose nonce follows the sender's last item is the next one in line, if nonces are popped in increasing order |
| `PackingRules.AdmittedIsSmall` | txpool/txpool.go:342-379 | Of whatever the pool admits, amount and script fee each fit in what is not locked, and are below 2^63; nothing is said of their sum |
| `PackingRules.FeeIsNotSetAside` | txpool/txpool.go:209-229 | An admitted payment whose amount and fee together exceed what is free is packed, and its block leaves the sender below its lock, or wrapped around |
| `PackingRules.FeeBreaksLock` | blockchain/blockchain.go:637-640 | For instance: of 1000000 with 500000 locked, amount 500000 and fee 1 leave 499999; of 500000 without lock they leave 2^64 - 1 |
| `PoolOrder.GapIff` | txpool/txpool.go:204-271 | For payments popped in any order: a packed nonce is missing if and only if the sender's first affordable transaction is ahead of the chain nonce and, before the block is full, one with the nonce after the chain nonce comes later |
| `PoolOrder.WrongOrderLeavesGap` | txpool/txpool.go:204-271 | At chain nonce 1 the heap order above packs nonce 2 with 1 missing |
| `PoolOrder.RefusedScriptLeavesGap` | txpool/txpool.go:215-226 | A script that fails leaves such a gap even with increasing nonces |
| `PoolOrder.GoodListInLine` | txpool/txpool.go:146-274 | From a list in good order, and with no script that fails, packed nonces are consecutive |
| `Chain.KeepsLockIff` | blockchain/blockchain.go:628-656 | For every block and every account receiving nothing in it: it loses amounts and fees, modulo 2^64; it loses just that and keeps its lock if and only if they fit in balance minus lock |
| `Chain.FeelessRoundFits` | server/server.go:964-993 | Without fees packing itself sees to it that this holds |
| `Chain.ScriptFreeRoundSucceeds` | server/server.go:964-993 | A round that pops no scripts is carried out |
| `Chain.RoundKeeps` | server/server.go:964-993 | A pack-and-commit round, with or without scripts, that is carried out keeps locks within balances and the bound on money, if amounts and fees packed for each sender fit in balance minus lock and nobody pays himself |
| `Chain.RunIsSound` | server/server.go:964-993 | Over any number of rounds, locks and unlocks from genesis, with that condition on each round: every state keeps locks within balances and money below 2^63 |
| `Chain.RunInLine` | server/server.go:964-993 | Over any run, whatever amounts, fees, balances and receivers, with nonces popped in increasing order and no failing script: the committed nonces of each account run on from its first one without gap or repeat, and its nonce counts them |
| `Chain.GenesisInLine` | server/server.go:964-993 | From genesis they are 1, 2, 3, … |
| `Base58.Decode` | until/base58.go:62-91 | The loop over big integers from the back, with its early return, computes the decoding |
| `Base58.ReverseInPlace` | until/base58.go:112-117 | The in-place swaps reverse the buffer |
| `Base58.Encode` | until/base58.go:94-120 | The two appending loops and the reversal compute the encoding |
| `Base58.LettersAreTheAlphabet` | until/base58.go:11-18 | The letter codes are those of the alphabet constant |
| `Base58.TablesAgree` | until/base58.go:23-56 | The decoding table and the alphabet are inverse to each other; 255 marks exactly the other bytes |
| `Base58.DecodeEncode` | until/base58.go:62-120 | Every byte string comes back from its encoding, leading zero bytes included |
| `Base58.EncodeDecode` | until/base58.go:62-120 | A text is the encoding of what it decodes to if and only if it is over the alphabet |
| `Base58.EncodedIff` | until/base58.go:94-120 | A text is the encoding of some bytes if and only if it is over the alphabet, has their value in base 58, and as many leading 1s as they have leading zero bytes |
| `Base58.CheckDecodeInvertsCheckEncode` | until/base58.go:131-155 | A text is accepted with a payload and version if and only if it is their checked encoding, for any four-byte checksum |
| `Address.KeyTextLength` | until/base58.go:94-120 | A 32-byte key takes at most 44 characters, so its address always fits the 47-byte array |
| `Address.LongestText` | until/base58.go:94-120 | The bound of 44 is reached |
| `Address.AddressRoundTrip` | types/address.go:13-34 | The key comes back from the stored address if and only if the address text has 47 characters; otherwise nothing comes back |
| `Address.AddressBegins` | types/address.go:13-19 | An address is "Kto" and the key's Base58 text, padded with zeros to 47 bytes |
| `Address.AddressCanFail` | until/privkey.go:17-21 | The all-zero key has an address of 35 characters and is lost |
| `Address.FullAddressesAreUnique` | types/address.go:13-19 | Two keys with full-length addresses share one only if they are equal |
| `Qsort.Qsort` | until/slice/slice.go:96-121 | The work-list quicksort terminates with a sorted permutation, for every total order |
| `Qsort.Partition` | until/slice/slice.go:103-114 | One range is rewritten in place as its smaller part, the pivot and the rest |
| `Qsort.PartitionSettles` | until/slice/slice.go:96-121 | After a round any two elements that share no pending range are in order |
| `Qsort.Filter` | until/slice/slice.go:23-35 | The loop keeps the elements that pass, in order |
| `Qsort.Bsearch` | until/slice/slice.go:123-137 | On a sorted slice -1 if and only if the element is absent, else an index of it |
| `Merkle.ClearLowestBit` | until/merkle/merkle.go:30-36 | n & (n-1) drops the lowest set bit |
| `Merkle.PowerOfTwoIsSplitPoint` | until/merkle/merkle.go:30-44 | For every n ≥ 2 the result is the largest power of two strictly below n, and the only one that splits as section 2.1 of RFC 6962 says |
| `Merkle.Construction` | until/merkle/types.go:116-154 | Construction succeeds if and only if no item is empty; then the leaves in order are the items and the root is their tree hash |
| `Merkle.PathClimbs` | until/merkle/merkle.go:64-114 | The path built for a leaf ends with a way that validation climbs to the root |
| `Merkle.VerifyNodeIffOnce` | until/merkle/merkle.go:122-126 | Without hash collisions among the strings involved, the answer is yes exactly for what occurs once among the items, and for the two digests under the root put together; an empty string makes it panic |
| `Merkle.VerifyNodeIffMember` | until/merkle/merkle.go:122-126 | For pairwise distinct items that is membership, but for those two digests |
| `Merkle.ValidateSound` | until/merkle/merkle.go:94-114 | Whatever path is supplied, with siblings of any length: as long as none of its steps hashes the very bytes of an item, only what the tree itself has hashed validates, an item or the two digests under a branch |
| `Merkle.HashedIsItemOrPair` | until/merkle/merkle.go:94-114 | Of what the tree has hashed, everything but the items is as long as two digests |
| `Merkle.HashedValidates` | until/merkle/merkle.go:94-114 | And all of it validates with the right path |
| `Merkle.ForgedPath` | until/merkle/merkle.go:94-114 | Without that condition it fails: in the tree of the one item h(d) and s, d validates |
| `Lexer.ScriptLex.Getc` | contract/parser/word.go:34-49 | The next byte of the input wherever the buffer boundary falls, or the pushed-back one; end of input is kept |
| `Lexer.ScriptLex.Ungetc` | contract/parser/word.go:51-53 | The byte read last is the next one again; pushed back twice in a row a zero byte comes before it, and a third time does nothing |
| `Lexer.ScriptLex.GetWord` | contract/parser/word.go:65-77 | The longest run of letters and digits |
| `Lexer.ScriptLex.GetLiteral` | contract/parser/word.go:80-105 | The text up to the same quote, or an error at a line end, the end of input or what cannot be unquoted |
| `Lexer.ScriptLex.GetDigit` | contract/parser/word.go:108-147 | The number that starts here, with the special treatment of a leading zero |
| `Lexer.ScriptLex.NextWord` | contract/parser/word.go:149-171 | The next symbol of the remaining input and exactly what follows it, across all refills |
| `LexSpec.ParseDecimal` | contract/parser/word.go:108-147 | The decimal text of every uint64 reads as that number |
| `LexLaws.NumberIff` | contract/parser/word.go:108-147 | A number is taken with all digits and letters a to f behind its first digit, octal after a leading zero; it is an error exactly if some of them is no digit of the base or the value needs more than 64 bits |
| `LexLaws.LoneZero` | contract/parser/word.go:113-122 | A zero with no digit behind it stands alone |
| `LexLaws.SomeNumbers` | contract/parser/word.go:108-147 | For instance, 017 is fifteen, 08 an error, and 12g a number and a name |
| `LexLaws.LiteralIff` | contract/parser/word.go:80-105 | Between two quotes of one kind stands the text itself, unless there is a backquote in it |
| `LexLaws.LiteralFails` | contract/parser/word.go:80-105 | A line end in front of the second quote is an error and taken with it; so is the end of input |
| `LexLaws.OtherByte` | contract/parser/word.go:149-171 | What begins neither name, number nor literal and is no blank is an error of one byte |
| `LexLaws.NameIs` | contract/parser/word.go:65-77 | A name is taken with all letters, digits and underscores |
| `LexLaws.BlankSkipped` | contract/parser/word.go:149-160 | Blanks and line ends are skipped |
| `ScriptParser.Parser.Getw` | contract/parser/parser.go:43-58 | The pushed-back word or the next one; an error reads as an end |
| `ScriptParser.Parser.ParseArguments` | contract/parser/parser.go:118-141 | The recursive descent over the object computes the grammar's argument list |
| `ScriptParser.Parser.ParseCall` | contract/parser/parser.go:86-115 | And a call with its arguments |
| `ScriptParser.Parser.Parse` | contract/parser/parser.go:176-194 | And all calls of the input, or failure |
| `ParseSpec.ArgumentsAccept` | contract/parser/parser.go:118-159 | An argument list is read if and only if constants follow up to the end of input or the first lexical error, and then it is exactly those; the error and one more symbol are taken with it |
| `ParseSpec.CallsAccept` | contract/parser/parser.go:86-194 | What is accepted on every input: calls, each a name and constants, ended by the end of input or a lexical error and the symbol behind it |
| `ParseSpec.WordsAccept` | contract/parser/parser.go:86-194 | Without lexical errors the accepted word lists are exactly the empty one and a name followed by constants |
| `ParseSpec.MoreCallsIff` | contract/parser/operate.go:32-38 | For every input that parses: there is more than one call if and only if the first lexical error is not the first symbol and the symbol two places after it is a name |
| `ParseSpec.LexicalErrorSplitsCalls` | contract/parser/operate.go:32-38 | For instance, ` a # b c` has two calls |
| `Script.Parser` | contract/parser/operate.go:25-41 | The loop over the calls builds the scripts of the text |
| `Script.TakeArgumentsIff` | contract/parser/operate.go:203-228 | Arguments are taken if and only if there are enough and each of the first ones fits its type; more are ignored |
| `Script.ScriptsIff` | contract/parser/operate.go:25-157 | What the whole front end makes of any text whatever: nothing, or the command of the first call, perhaps nil, once for each call |
| `Script.ScriptsOfWords` | contract/parser/operate.go:25-157 | On texts without lexical errors that is at most one command |
| `Script.ParsePrintNew` | rpcclient/rpcclient.go:351-351 | The text printed to create a token parses to that one command with those arguments, for all amounts and quotable names |
| `Script.ParsePrintMint` | rpcclient/rpcclient.go:392-392 | So does the text printed to mint |
| `Script.ParsePrintTransfer` | rpcclient/rpcclient.go:430-430 | And the text printed to transfer |
| `PrintedScripts.PrintedTransfer` | contract/exec/exec.go:148-224 | What the text printed to transfer does in a transaction: refused, and a panic in a block, exactly if there is no such token or the sender is frozen or has less; otherwise the sender has n less of it and the printed address n more |
| `PrintedScripts.PrintedNew` | contract/exec/exec.go:82-107 | The text printed to create a token is refused exactly if there is one of that name; otherwise the sender owns it from then on, but for the empty name, which the store refuses |
| `PrintedScripts.PrintedMint` | contract/exec/exec.go:110-145 | The text printed to mint is refused exactly if the sender does not own the token; otherwise the sender has so much more of it |
| `PrintedScripts.FreezeTextRuns` | contract/exec/exec.go:227-258 | A text that freezes or unfreezes an address is refused exactly if the sender does not own the token; otherwise the address is frozen afterwards, or is not, and nothing else changes |
| `PrintedScripts.NoCommandRuns` | contract/exec/exec.go:45-50 | A text that gives no command runs and does nothing |
| `PrintedScripts.StringAlone` | contract/parser/operate.go:25-41 | For instance, one that is a string |
| `PrintedScripts.ShortCommandCrashes` | contract/parser/operate.go:25-41 | A command without its amount is a nil script, and crashes wherever it is run |
| `Codec.Record.Show` | contract/parser/otypes.go:81-90 | The loop over the arguments gives the binary form |
| `Codec.Record.Read` | contract/parser/otypes.go:92-117 | Reading fills the receiver's name and slots in place and returns what follows; after an error both are as far as they were filled |
| `Codec.ReadUpToError` | contract/parser/otypes.go:104-116 | A read that fails on an argument has read those in front of it, at most the type of that one, and none behind it |
| `Codec.UnknownTypeSticks` | contract/parser/otypes.go:55-79 | An argument of a type above 4 takes no value and is not even skipped: all arguments from there on get that type and keep their values, and what follows is what was there |
| `Codec.ReadShow` | contract/parser/otypes.go:43-117 | A well-typed script shown and read back, with any bytes behind, has its name and arguments, and is the same script if and only if the receiver had no more slots than it has arguments |
| `Codec.ParsedScriptsAreWellTyped` | contract/parser/operate.go:203-210 | Every script the parser builds is well typed in that sense |
| `Codec.DsliceEslice` | contract/parser/operate.go:265-281 | A slice with its length comes back, with any bytes behind |
| `TokenExec.KeyFamilies` | contract/exec/exec.go:270-302 | The four key families are disjoint and, for addresses of one length, injective |
| `TokenExec.KeyTexts` | contract/exec/exec.go:270-302 | For instance, of token K and address a: b/Ka, f/Ka and t/Ka |
| `TokenExec.Exec.DealNew` | contract/exec/exec.go:82-107 | Creating a token writes four entries of the overlay, or fails and writes none |
| `TokenExec.Exec.DealMint` | contract/exec/exec.go:110-145 | Minting reads through the overlay and writes one entry |
| `TokenExec.Exec.DealTransfer` | contract/exec/exec.go:148-224 | A transfer reads both balances before writing either |
| `TokenExec.Exec.DealFreeze` | contract/exec/exec.go:227-258 | Freezing and unfreezing by the owner only |
| `TokenExec.RunAndFlush` | contract/exec/exec.go:45-79 | New followed by Flush on the object; a failing list changes nothing, and neither does a flush the store refuses |
| `TokenExec.Exec.Root` | contract/exec/exec.go:52-67 | The loop over the sorted keys computes the root of keys and values in turn |
| `TokenExec.RootPanicsIff` | contract/exec/exec.go:52-67 | Taking the root of an overlay dereferences a nil tree if and only if some key or value in it is empty |
| `TokenExec.RootOfOne` | contract/exec/exec.go:52-67 | For an overlay of one entry the tree hashes its key in front of its value |
| `EmptyIds.RootlessIff` | contract/exec/exec.go:52-79 | Of a script that runs, no root can be taken if and only if one of its commands creates a token with the empty id; then, and only then, flushing it writes nothing |
| `EmptyIds.PackPanicsIff` | txpool/txpool.go:215-229 | Packing panics on a transaction exactly if its script has a nil command, or runs and creates such a token |
| `EmptyIds.EmptySymbolPanics` | rpcclient/rpcclient.go:351-351 | For instance on the text the client prints for an empty symbol, in an admitted transaction |
| `TokenExec.OverlayIsDirect` | contract/exec/exec.go:45-79 | From any overlay, a list runs as it would directly on what store and overlay show together, if no command uses a token the overlay has created |
| `TokenExec.ExecuteIsDirect` | contract/exec/exec.go:45-79 | A list takes effect if and only if its commands succeed one by one, none uses a token created in the list and none creates one with the empty id; then the store is the same as after running and flushing one by one |
| `TokenRuns.SupplyStep` | contract/exec/exec.go:82-258 | One command changes a token's supply by what it mints and by nothing else |
| `TokenRuns.TransferConservesIff` | contract/exec/exec.go:148-224 | A transfer keeps the supply if and only if the receiver is somebody else or the amount is zero |
| `TokenRuns.SupplyIsMinted` | contract/exec/exec.go:82-258 | Over any run the balances of each token sum to what was minted |
| `TokenRuns.SupplyFromScratch` | contract/exec/exec.go:82-258 | From an empty store the balances of every token sum to exactly what was minted |
| `TokenRuns.OwnerForever` | contract/exec/exec.go:82-107 | The owner of a token never changes once it exists |
| `TokenRuns.FrozenForever` | contract/exec/exec.go:148-258 | A frozen address stays frozen and its balance never falls until it is unfrozen |
| `BgStore.EMapKeyInjective` | until/store/bg/bg.go:834-841 | Different names or keys of maps have different flat keys |
| `BgStore.MapKeyBytes` | until/store/bg/bg.go:834-841 | For instance, the bytes of key b of map a |
| `BgStore.PrefixIsOneMap` | until/store/bg/bg.go:442-455 | The flat keys under a map's prefix are those of that map alone |
| `BgStore.Txn.Mset` | until/store/bg/bg.go:434-436 | Sets one key of one map; the other maps and everything else in the store stay |
| `BgStore.Txn.Mget` | until/store/bg/bg.go:438-440 | The value in that map, or the error for a missing key |
| `BgStore.Txn.Mdel` | until/store/bg/bg.go:430-432 | Removes one key of one map |
| `BgStore.Txn.Mkeys` | until/store/bg/bg.go:442-455 | Exactly the keys of that map, in ascending order |
| `BgStore.Txn.Mkvs` | until/store/bg/bg.go:476-494 | And their values beside them |
| `BgStore.Txn.Mclear` | until/store/bg/bg.go:415-428 | Empties one map and touches nothing else |
| `BgList.MetaKeyCollides` | until/store/bg/bg.go:801-826 | A list's bounds share a key with an element of another list if and only if its name is the other's name and eight more bytes |
| `BgList.ListKeyBytes` | until/store/bg/bg.go:801-826 | For instance, the keys of the bounds of list a and of its element number 1 |
| `BgList.ListTxn.Llpush` | until/store/bg/bg.go:521-538 | Puts an element in front, unless all 2^64 - 1 places are taken; lists apart from this one stay |
| `BgList.ListTxn.Lrpush` | until/store/bg/bg.go:558-575 | Puts an element at the end |
| `BgList.ListTxn.Llpop` | until/store/bg/bg.go:540-556 | Takes the first element, or fails on an empty list |
| `BgList.ListTxn.Lrpop` | until/store/bg/bg.go:577-593 | Takes the last element, or fails on an empty list |
| `Frequent.MostFrequent` | until/miscellaneous/miscellaneous.go:186-209 | On a slice with equal elements side by side: the highest count, and exactly the elements that reach it, each once and in their order in the slice |

## Left out

- Networking, gossip, HTTP, gRPC, logging, configuration and command-line tools: plumbing.
- The inside of etcd raft, the write-ahead log, badger and JSON: an abstract log, a map and decoded values stand for them; saving the hard state is taken to succeed, and of badger's limits on keys and values only the one on empty keys is modelled. The algorithm of `container/heap` is modelled as Go documents it; its source is not part of the repository.
- Interleavings of goroutines: each step is atomic, and one pack-and-commit round is one step.
- TxHeaps.PopsIncreasing: says nothing of a heap in which a sender's nonces, as int64, run against time, where `Less` is not an order.
- TxPool.Txpool.Pack: that packing writes the script's root into the transaction; a block's roots are taken as they come.
- Ledger.Blockchain.AddBlock: the records stored beside balances and nonces (blocks by height and hash, transactions by address), and what happens when a raw account key in the flat store equals one of them.
- RaftNodes.RaftNode.CommitEntries: filtering the pool before a block is committed, which touches neither indices nor ledger, and updating the cluster on configuration changes.
- RaftSafety.RunsAreSafe: `verify`, testing a block in the middle of a Ready, writes nonce records too; here they are written between Readys. No test sees them (`RaftLocal.AskingIsHarmless`).
- RaftNodes.RaftNode.RecoverSnapshotData: saving a snapshot happens as a whole or not at all.
- RaftNodes.RaftNode.FetchMissing: the search for the leader and waiting for one to be elected; answers of a leader are given as a sequence.
- RaftSpec.EntriesFrom: entries of a snapshot that are not consecutively indexed, which the raft storage never yields, are an error here, where the slice in the program would panic.
- Cluster membership: configuration changes only move the commit index.
- The balance comparison in `Checkresults`, which compares an object with itself, and the test of the Merkle root in `VerifyBlcok`.
- Sharing of backing arrays by the two appends in `constructPath`: proofs are values.
- Codec.ReadShow: together with what follows it the binary form must be shorter than 2^32 bytes, because the length of the remaining data is compared as a 32-bit number.
- BgStore.EMapKeyInjective: names of maps are shorter than 2^32 bytes, because their length is stored in 32 bits.
- The iterator of the store: what it delivers under a prefix, each key once and in order, is a parameter.
- Sets, sorted sets, `lset`, `lindex`, `lrange` and `llclear` of the store, and `Contain`.
- Key generation, signing, and the contents of orders beyond their address.
