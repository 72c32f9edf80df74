# Oxen core: block store, quorum mesh, confirmation votes and extra data

A Dafny model of four parts of Oxen core and proofs about them. `dafny verify dfyconfig.toml`
checks all of it.

**Block store.** `ChainTypes`, `StoreSpec` and `Tables` describe the eight tables that adding and
popping a block touch: spent key images, transaction indices, transactions, output positions per
transaction, outputs by number, outputs by amount, blocks, and block heights by hash. `StoreRuns` has
the runs of additions and pops. `BlockchainDb` is the store itself, a class whose methods update the
tables in place, loop by loop. Each method is proved against a function on table values from
`StoreSpec`, and performing a run against the run. The theorems are about those functions:

- `StoreReach`, on `StoreOutputs`: in every store that any run of additions and pops reaches, the
  recorded position of an output leads to that output, every stored output belongs to one, and a pop
  succeeds exactly when all hashes of the top block are stored and different.
- `StoreRefinement`, on `StoreAcceptance`: the store is what replaying a plain stack of blocks gives,
  all along a run, exactly when no pop takes off transactions of other blocks. What the store accepts
  is then decided by looking at the stacked blocks only.
- `StoreRoundTrip`: a pop undoes an addition, in every table, exactly when no transaction of the block
  was dropped.
- `StoreAdmission`: what the store accepts after any run, also with gaps in its tables.
- `StoreLedger`, on `StoreSpent`: along any run, exactly when the spent images stay the disjoint union
  of the stored transactions' images, and when no image is in two of them.
- `StoreRct`: the running count of amount-zero outputs against the list it is meant to count.
- `StoreWitnesses`: inputs at which these conditions fail.

A transaction with an unsupported input is dropped: the block is still added, without it. The theorems
are about runs with dropped transactions too.

`DifficultyWindow` is the incrementally kept window of timestamps and difficulties, together with the
caller that remembers which height it is good for. `CheckpointSpec` and `Checkpoints` are the finality
rule, the range query under it, culling, and the decision on alternative blocks.

**Quorum mesh.** `QuorumGraph` has graphs of connections and paths of at most two hops. `QuorumMesh`
is the greedy builder on its matrix: what each trial restores, which candidate a pass picks, that the
passes end, and what failures the finished mesh survives. `QuorumThirdPass` works one pass out.

**Confirmation votes.** `BinomialTail` has the tail of the binomial distribution as the simulators
compute it. `ConfirmationVotes` has their three vote loops over arbitrary draws.

**Extra data.** `TxExtra` and `TxExtraDecoder` have the script that decodes a transaction's extra data
from hex, against a printer, and `TxExtraWire` has the text of each field digit by digit.

## Where the code does less than it seems to promise

The model follows the code. In each case the exact condition is proved.

- A block with a dropped transaction can be added, but a pop does not give back the store
  (`PopUndoesAddIff`). If the hash of the dropped transaction is new, the pop fails and the block stays
  (`DroppedBlockStays`, `DroppedBlockStuck`). It succeeds exactly when the block's hashes are different
  and each dropped transaction is listed under the hash of a stored one, which it then takes off
  (`PopAfterAddIff`, `PopTakesAnother`). Only then does the store stop being a stack of blocks
  (`RunRefinesStackIff`); hashes computed from transactions exclude it (`TellingRun`).
- Dropping a transaction also removes key images that it never added, when they come after the
  unsupported input (`DroppedLeavesStoreIff`). A run can end with a stored transaction whose image is
  not spent (`StoredButNotSpent`), and the store then accepts a second transaction that spends it
  (`StoredTwice`). Along any run the spent images are the disjoint union of the stored transactions'
  images exactly as long as no addition loses a spent image that way (`RunUnionIff`, `RunSpentIff`),
  and no image is in two stored transactions exactly as long as no addition repeats one
  (`RunNoImageTwiceIff`). Whether blocks with unsupported inputs reach the store is up to the checks
  above it.
- Below the lowest checkpoint, if that one is hard-coded, the immutable checkpoint for a height lies
  above the height, because the range query moves its start up (`ImmutableCorrectIff`). The caller
  that decides on alternative blocks guards against it (`IsAlternativeBlockAllowed`). Putting a
  checkpoint can then take the answer away (`ImmutableGrowsWithPutIff`, `PutCanTakeAwayTooHighAnswer`),
  and so can recording a service node checkpoint over a hard-coded one with a block
  (`RunKeepsAnswersIff`, `RecordingCanTakeAnswerAway`).
- The difficulty window keeps blocks that are gone when the caller asks with only the genesis block
  left after it had asked higher up (`EveryQueryIsFreshIff`, `LeftoversHappen`). `QueryIsFreshIff` says
  for every query of a run whether it shows such blocks.
- The running count of amount-zero outputs counts a block's miner transaction by version, whereas the
  outputs are filed by whether the transaction looks like a miner's; and it counts outputs of dropped
  transactions. It is exact exactly when these differences cancel (`RctCountExactIff`,
  `RunRunningTotalIff`, `RunTotalsIff`, `MissesMinerLikeOutput`, `CountsDroppedOutput`).
- The mesh builder cannot reach its target with fewer than five nodes (`TargetReachableIff`).
- The extra-data script reads nonce sizes and name system flags, which are hex bytes, in base ten
  (`RoundTripIff`, `NonceCutShort`).
- The design text in docs/sent-l2-confirmation/sent-confirmations.md:138-141 calls the vote that
  settles an undisputed change the third confirmation; by the loops, and by the same sentence's own
  count, it is the fourth (`UnanimousTakesFiveBlocks`).

## Model

| member | source | states |
|---|---|---|
| StoreReach.RunConsistent | src/blockchain_db/blockchain_db.cpp:102-253 | after every run of additions and pops, with whatever inputs, each recorded position of a stored transaction leads to a record with that output's key, unlock time, height and commitment that names it back; each stored output is at the recorded position of one stored transaction; each block is known at its height |
| StoreReach.RunRecords | src/blockchain_db/blockchain_db.cpp:122-158 | after every run, from the transaction's own fields: a miner output of version 2 on is filed under amount zero with the identity mask of its amount, any other under its amount and, at zero, with its own mask; key, time and height are the output's own, and the record names it back |
| StoreReach.RunUnlockTimes | src/blockchain_db/blockchain_db.cpp:293-297 | after every run, the unlock time looked up for an output is its own from version 3 on and the transaction's before |
| StoreReach.RunPopsIff | src/blockchain_db/blockchain_db.cpp:225-253 | after every run, a pop succeeds exactly when there is a block and its hashes are all stored and different, and takes exactly those off |
| StoreReach.PopSucceedsIff | src/blockchain_db/blockchain_db.cpp:225-253 | the same for any consistent store, which a pop leaves consistent |
| StoreReach.PopAfterAddIff | src/blockchain_db/blockchain_db.cpp:102-253 | a block just added comes off exactly when its hashes are different and each dropped transaction has the hash of one stored before; every table is restored exactly when nothing was dropped |
| StoreReach.DroppedBlockStays | src/blockchain_db/blockchain_db.cpp:108-117 | with new hashes, a pop of a block with a dropped transaction fails |
| StoreReach.RemoveListedSucceedsIff | src/blockchain_db/blockchain_db.cpp:230-237 | listed transactions can be removed exactly when all are stored and none is listed twice |
| StoreReach.AddTransactionsHashes | src/blockchain_db/blockchain_db.cpp:188-205 | an accepted list adds exactly the hashes of its supported transactions, which were new and distinct |
| StoreOutputs.RemoveTransactionSucceedsIff | src/blockchain_db/blockchain_db.cpp:242-253 | in a consistent store exactly the stored transactions can be removed, in any order, and the store stays consistent |
| StoreOutputs.AddTransactionConsistent | src/blockchain_db/blockchain_db.cpp:72-159 | adding a transaction keeps every recorded position and every owner right |
| StoreOutputs.RemoveOutputsSpare | src/blockchain_db/lmdb/db_lmdb.cpp:1246-1305 | removing a transaction's outputs succeeds, empties its positions and leaves those of others alone |
| StoreOutputs.AddOutputsFound | src/blockchain_db/blockchain_db.cpp:128-153 | the positions collected for a transaction lead to its outputs |
| StoreOutputs.AddOutputsKeep | src/blockchain_db/blockchain_db.cpp:128-153 | outputs found before are still found |
| StoreOutputs.AddOutputsOwned | src/blockchain_db/blockchain_db.cpp:128-153 | every record added belongs to an output of the transaction at its collected position, and every other keeps its owner |
| StoreRefinement.RunRefinesStackIff | src/blockchain_db/blockchain_db.cpp:161-253 | all eight tables equal the replay of a plain stack all along a run exactly when no pop of the run takes off transactions of other blocks |
| StoreRefinement.RunRefinesStack | src/blockchain_db/blockchain_db.cpp:161-253 | the forward half, for the end of the run; the stack only pushes what it accepts, and drops its top unless a transaction of it was dropped |
| StoreRefinement.TellingRun | src/blockchain_db/blockchain_db.cpp:102-253 | when the hash tells whether a transaction is supported, no pop takes off others |
| StoreRefinement.RunMatchesStack | src/blockchain_db/blockchain_db.cpp:102-158 | after such a run, blocks, heights, transaction rows and indices are those of the stack's supported transactions, hashes are distinct, and the spent images are those of the stack played through |
| StoreRefinement.RunSpentIff | src/blockchain_db/blockchain_db.cpp:102-120 | after such a run the spent images are the disjoint union of the stored transactions' key images exactly when no dropped transaction named an image that was spent at that point |
| StoreRefinement.RunAcceptsIff | src/blockchain_db/blockchain_db.cpp:161-223 | after such a run, an addition succeeds exactly when the block has the right shape and parent, hashes of its supported transactions are new and distinct, no image is spent when it is needed, and outputs can be stored |
| StoreRefinement.RunPops | src/blockchain_db/blockchain_db.cpp:225-240 | after such a run, a pop succeeds exactly when there is a block of which nothing was dropped or which takes off others; in the first case it returns its transactions reversed and leaves the replay of the rest |
| StoreRefinement.SameStackSameStore | src/blockchain_db/blockchain_db.cpp:161-253 | such runs that end on the same blocks end on the same tables, whatever was added and popped in between |
| StoreRefinement.ReplayMatches | src/blockchain_db/blockchain_db.cpp:161-223 | a list of blocks can be added to an empty store exactly when each is acceptable on those before it, and the tables then hold just their supported transactions |
| StoreRefinement.PopReplayed | src/blockchain_db/blockchain_db.cpp:225-253 | popping the replay of a stack is the replay of the stack without its top if nothing of the top was dropped, and otherwise fails exactly unless it takes off others |
| StoreRefinement.AddAcceptsIff | src/blockchain_db/lmdb/db_lmdb.cpp:854-937 | a store that holds a stack accepts a block exactly when the stack does, and then holds the taller stack |
| StoreRefinement.PushAcceptsIff | src/blockchain_db/lmdb/db_lmdb.cpp:854-937 | the block record goes in exactly when its hash is new and its parent is the top |
| StoreSpent.DisjointUnionIff | src/blockchain_db/blockchain_db.cpp:102-120 | where the spent images were the disjoint union of given ones, after a list they are that of those and the stored ones' images exactly when no dropped transaction named an image spent at that point |
| StoreSpent.SpentCount | src/blockchain_db/blockchain_db.cpp:102-120 | playing a list through, spent images and lost ones together are as many as those spent before and those of the stored transactions |
| StoreLedger.RunUnionIff | src/blockchain_db/blockchain_db.cpp:102-253 | along every run, whatever its pops take off, the spent images are the disjoint union of the images in the transaction rows exactly when no accepted addition drops a transaction that names a spent image |
| StoreLedger.RunNoImageTwiceIff | src/blockchain_db/blockchain_db.cpp:102-253 | along every run no image is in two stored transactions exactly when no accepted addition stores an image of a stored transaction |
| StoreLedger.AddTransactionsImages | src/blockchain_db/blockchain_db.cpp:102-120 | what an accepted list does to the spent images and to the images in the rows, in any store |
| StoreLedger.RemoveKeepsImages | src/blockchain_db/blockchain_db.cpp:242-253 | removing any stored transaction keeps the union disjoint and images single |
| StoreAdmission.RunAddsIff | src/blockchain_db/blockchain_db.cpp:161-223 | after every run, an addition succeeds exactly when shape and parent are right, hashes of supported transactions are new and distinct, no image is spent when it is needed, outputs can be stored, and every table takes another row |
| StoreRuns.AddedShape | src/blockchain_db/blockchain_db.cpp:161-186 | a block goes in only with as many transactions as hashes, and with a miner transaction exactly before version 21; otherwise it is refused before anything else |
| StoreAdmission.WhyNotOnTop | src/blockchain_db/lmdb/db_lmdb.cpp:854-887 | where blocks and heights agree, as after every run, a block is refused for a known hash first, then an unknown parent, then a parent that is not the top, each with its own error |
| StoreAdmission.AddTransactionsSucceedsIff | src/blockchain_db/blockchain_db.cpp:72-205 | the same for a list of transactions in any store |
| StoreAdmission.AddOutputsSucceedsIff | src/blockchain_db/lmdb/db_lmdb.cpp:1157-1220 | outputs go in exactly when each can be stored and its list takes another row |
| StoreRoundTrip.PopUndoesAddIff | src/blockchain_db/blockchain_db.cpp:102-253 | a pop right after an addition restores every table and returns the transactions reversed, exactly when no transaction has an unsupported input |
| StoreRoundTrip.PopUndoesAdd | src/blockchain_db/blockchain_db.cpp:161-253 | the restoring direction, with the invariant that no amount is kept without outputs |
| StoreRoundTrip.RemoveTransactionUndoesAdd | src/blockchain_db/blockchain_db.cpp:242-253 | removing a supported transaction right after adding it gives back the store |
| StoreRoundTrip.RemoveListedUndoesAdds | src/blockchain_db/blockchain_db.cpp:230-237 | removing a block's transactions last to first gives back the store before the first was added |
| StoreRoundTrip.RemoveOutputsUndoesAdds | src/blockchain_db/lmdb/db_lmdb.cpp:1246-1266 | removing outputs last to first at their recorded positions undoes adding them in order |
| StoreRoundTrip.RemoveOutputUndoesAdd | src/blockchain_db/lmdb/db_lmdb.cpp:1268-1305 | removing an output under its stored amount at the position returned undoes adding it |
| StoreRoundTrip.DroppedTransaction | src/blockchain_db/blockchain_db.cpp:102-120 | a transaction with an unsupported input is dropped exactly when its earlier images are fresh, and the only change is that every image it names is gone |
| StoreRoundTrip.DroppedLeavesStoreIff | src/blockchain_db/blockchain_db.cpp:108-118 | dropping a transaction changes nothing exactly when no image after the unsupported input was spent before |
| StoreAcceptance.AddTransactionAcceptsIff | src/blockchain_db/blockchain_db.cpp:72-159 | a transaction goes through exactly when the images it needs are fresh and distinct and, if it is supported, its hash is new and every output can be stored; then it has the next row or was dropped |
| StoreAcceptance.WhyRefused | src/blockchain_db/blockchain_db.cpp:72-159 | in a store without gaps, a transaction of key inputs is refused for a spent or repeated image first, a known hash second, and an output that pays to no key or has amount zero before version 2 last, each with its own error, and else stored |
| StoreAcceptance.StorableMeans | src/blockchain_db/lmdb/db_lmdb.cpp:1157-1180 | an output is refused exactly when it pays to no key or has amount zero before version 2 |
| StoreAcceptance.AddTransactionsAcceptsIff | src/blockchain_db/blockchain_db.cpp:188-205 | the same for the list of a block, with hashes distinct across it and images judged when their turn comes |
| StoreAcceptance.SupportedSpending | src/blockchain_db/blockchain_db.cpp:102-120 | with nothing dropped, that means that all images are new and distinct, and all become spent |
| StoreAcceptance.AddOutputsAcceptsIff | src/blockchain_db/lmdb/db_lmdb.cpp:1157-1220 | outputs go in exactly when each pays to a key and has a commitment if its amount is zero |
| StoreRct.RunRunningTotalIff | src/blockchain_db/blockchain_db.cpp:188-217 | after a run in which no pop takes off others, the running total and the amount-zero list differ by exactly the outputs counted and filed differently or never stored, so they agree exactly when those cancel |
| StoreRct.RunZeroList | src/blockchain_db/blockchain_db.cpp:128-253 | after every run the amount-zero list has exactly the amount-zero outputs of the transactions in the table |
| StoreRct.RunTotalsIff | src/blockchain_db/blockchain_db.cpp:188-240 | after every run the running total is what was counted with the blocks in the store, so it is the length of the list exactly when that sum is the one over the rows |
| StoreRct.RunRunningTotal | src/blockchain_db/blockchain_db.cpp:188-217 | while stored blocks have a proper miner transaction, no listed one looks like it and nothing was dropped, the total is the length of the list |
| StoreRct.BlockZeroBalance | src/blockchain_db/blockchain_db.cpp:136-217 | how any accepted block moves the total and the list |
| StoreRct.RctCountExactIff | src/blockchain_db/blockchain_db.cpp:136-217 | a block's count is the number of amount-zero outputs it stored exactly when overcounted and never stored outputs together are as many as undercounted ones |
| StoreWitnesses.DroppedBlockStuck | src/blockchain_db/blockchain_db.cpp:225-237 | a block with a dropped transaction goes on an empty store and does not come off |
| StoreWitnesses.PopTakesAnother | src/blockchain_db/blockchain_db.cpp:102-253 | a block that lists the hash of a stored transaction with a dropped one comes off and takes the stored one with it |
| StoreWitnesses.StoredButNotSpent | src/blockchain_db/blockchain_db.cpp:108-118 | a run of two additions after which a transaction is stored and its image is not spent |
| StoreWitnesses.StoredTwice | src/blockchain_db/blockchain_db.cpp:102-120 | one addition more, and two stored transactions spend the same image |
| StoreWitnesses.MissesMinerLikeOutput | src/blockchain_db/blockchain_db.cpp:136-203 | a run after which the total is 0 and the amount-zero list has one output |
| StoreWitnesses.CountsDroppedOutput | src/blockchain_db/blockchain_db.cpp:200-203 | an addition after which the total is 1 and the amount-zero list is empty |
| BlockchainDb.Db.AddSpentKey | src/blockchain_db/lmdb/db_lmdb.cpp:1358-1373 | a new image is added, a known one refused |
| BlockchainDb.Db.RemoveSpentKeys | src/blockchain_db/blockchain_db.cpp:245-249 | exactly the images of the key inputs are gone, present or not |
| BlockchainDb.Db.SpendInputs | src/blockchain_db/blockchain_db.cpp:103-120 | the loop over inputs spends all, refuses a double spend, or rolls back at an unsupported input, as decided from the input list as a whole |
| BlockchainDb.Db.AddOutput | src/blockchain_db/blockchain_db.cpp:128-153 | the new record and the position returned, with amount, commitment and unlock time as the version and kind of transaction ask |
| BlockchainDb.Db.RemoveOutput | src/blockchain_db/lmdb/db_lmdb.cpp:1268-1305 | the record at the position and the row it names are gone, and nothing else |
| BlockchainDb.Db.AddOutputs | src/blockchain_db/blockchain_db.cpp:124-153 | the loop's tables and positions are those of adding the outputs one after the other |
| BlockchainDb.Db.AddTransactionData | src/blockchain_db/lmdb/db_lmdb.cpp:981-1074 | the new index and transaction rows, and both refusals |
| BlockchainDb.Db.AddTransaction | src/blockchain_db/blockchain_db.cpp:72-159 | the tables after one transaction, or its error |
| BlockchainDb.Db.RemoveTxOutputs | src/blockchain_db/lmdb/db_lmdb.cpp:1246-1266 | the loop from the last output to the first removes each under its stored amount |
| BlockchainDb.Db.RemoveTransactionData | src/blockchain_db/lmdb/db_lmdb.cpp:1078-1155 | the transaction's rows in four tables are gone, or the error |
| BlockchainDb.Db.RemoveTransaction | src/blockchain_db/blockchain_db.cpp:242-253 | images and rows of a stored transaction are gone, or the error |
| BlockchainDb.Db.PushBlock | src/blockchain_db/lmdb/db_lmdb.cpp:854-937 | the block row with its cumulative count, and the refusals of a known hash, an unknown parent and a parent that is not the top |
| BlockchainDb.Db.AddMiner | src/blockchain_db/blockchain_db.cpp:188-193 | the tables and the count after the miner transaction |
| BlockchainDb.Db.AddListed | src/blockchain_db/blockchain_db.cpp:195-205 | the tables and the count after the listed transactions |
| BlockchainDb.Db.AddBlock | src/blockchain_db/blockchain_db.cpp:161-223 | the store after adding a block and the height it got, or its error |
| BlockchainDb.Db.CountZeroOutputs | src/blockchain_db/blockchain_db.cpp:200-203 | the count grows by the number of amount-zero outputs |
| BlockchainDb.Db.RemoveTopBlock | src/blockchain_db/lmdb/db_lmdb.cpp:939-979 | the top block and its height entry are gone, or the error |
| BlockchainDb.Db.RemoveListed | src/blockchain_db/blockchain_db.cpp:230-237 | the loop removes the hashes last to first and appends each transaction in that order |
| BlockchainDb.Db.PopBlock | src/blockchain_db/blockchain_db.cpp:225-240 | the block returned, the transactions appended and the store left |
| BlockchainDb.Db.PopBlockOrAbort | src/blockchain_db/lmdb/db_lmdb.cpp:4323-4336 | the same, and an error leaves every table as it was |
| BlockchainDb.Db.AddBlockOrAbort | src/cryptonote_core/blockchain.cpp:5336-5366 | the store after an addition, and an error leaves every table as it was |
| BlockchainDb.Db.Perform | src/blockchain_db/blockchain_db.cpp:161-240 | performing any list of additions and pops on an empty store leaves exactly the store that the run theorems speak of |
| BlockchainDb.Db.GetOutputUnlockTime | src/blockchain_db/blockchain_db.cpp:293-297 | the unlock time recorded at an amount and position, or that there is no such output |
| DifficultyWindow.EveryQueryIsFreshIff | src/cryptonote_core/blockchain.cpp:1033-1047 | over every run of extensions, pops and queries, and any height of hard fork 16, every query gives the window rebuilt from scratch exactly when the caller never asks at genesis after asking above it |
| DifficultyWindow.QueryIsFreshIff | src/blockchain_db/blockchain_db.cpp:409-453 | over every run, a query gives the window rebuilt from scratch exactly when a tally of the kinds of operations leaves no stale entry; a full window pushes one stale entry out with each query |
| DifficultyWindow.RunTracks | src/cryptonote_core/blockchain.cpp:1033-1047 | after every run the vectors are the stale entries of the tally followed by all blocks above genesis, or the window when none is stale |
| DifficultyWindow.FillIsWindow | src/blockchain_db/blockchain_db.cpp:409-453 | kept or rebuilt, both vectors hold the last `count` blocks below the height without genesis, also where the count changes from 61 to 60 in between |
| DifficultyWindow.FillHoldsLast | src/cryptonote_config.h:335-352 | kept or rebuilt, the vectors have the entries of the last 61 blocks before hard fork 16 and of the last 60 from it on, or of all above genesis, oldest first |
| DifficultyWindow.UpToDateMeans | src/blockchain_db/blockchain_db.cpp:419-453 | being the window rebuilt from scratch, in those numbers |
| DifficultyWindow.RunRemembers | src/cryptonote_core/blockchain.cpp:808-819 | after every such run, the vectors are the window at the remembered height unless it was reset |
| DifficultyWindow.EmptyIff | src/blockchain_db/blockchain_db.cpp:415-417 | the vectors are empty exactly until the first query above genesis |
| DifficultyWindow.StaleAtGenesis | src/blockchain_db/blockchain_db.cpp:415-417 | a query at genesis after one above it leaves vectors that are not the window |
| DifficultyWindow.LeftoversIff | src/blockchain_db/blockchain_db.cpp:415-443 | one block above genesis, with height one remembered, the update is right exactly when the vectors were empty or too long to keep |
| DifficultyWindow.LeftoversHappen | src/blockchain_db/blockchain_db.cpp:409-453 | a run after which the window holds a block of an abandoned branch |
| DifficultyWindow.PushAndTrim | src/cryptonote_basic/difficulty.cpp:76-94 | appending the top block and trimming gives the last blocks up to it |
| DifficultyWindow.Cache.AddTimestampAndDifficulty | src/cryptonote_basic/difficulty.cpp:76-94 | both vectors get the new entry and keep their last `count` |
| DifficultyWindow.Cache.Trimmed | src/cryptonote_basic/difficulty.cpp:88-93 | erasing from the front keeps the last `count` entries |
| DifficultyWindow.Cache.Rebuild | src/blockchain_db/blockchain_db.cpp:429-442 | the vectors are those of the blocks from the start to below the end |
| DifficultyWindow.Cache.FillForPow | src/blockchain_db/blockchain_db.cpp:409-453 | the vectors after an update: unchanged below height 2, and the last 61 or 60 blocks where nothing is kept |
| CheckpointSpec.ImmutableCorrectIff | src/blockchain_db/blockchain_db.cpp:343-376 | the answer is the highest checkpoint at or below the height that is hard-coded or followed by another one there, and none when there is none, exactly unless the height lies below a hard-coded lowest checkpoint |
| CheckpointSpec.AnswersTooHighHappens | src/blockchain_db/lmdb/db_lmdb.cpp:4245-4246 | a table and a height with an answer above the height |
| CheckpointSpec.RangeGivesImmutable | src/blockchain_db/blockchain_db.cpp:352-370 | the rule on the two rows of the range query is the rule on the two rows at or below the height |
| CheckpointSpec.RangeMeans | src/blockchain_db/lmdb/db_lmdb.cpp:4235-4321 | for every start, end and limit, the range has the first rows between the two moved ends, up to the limit, in order and without gaps, upwards or downwards |
| CheckpointSpec.ImmutableGrowsWithHeight | src/blockchain_db/blockchain_db.cpp:343-376 | the answer never disappears or goes down as the height grows |
| CheckpointSpec.ImmutableGrowsWithPutIff | src/blockchain_db/blockchain_db.cpp:343-376 | putting a checkpoint neither removes nor lowers the answer exactly when it does not turn the topmost hard-coded one into a service node one, nor goes below an answer that was above the height |
| CheckpointSpec.PutCanTakeAwayTooHighAnswer | src/blockchain_db/lmdb/db_lmdb.cpp:4245-4246 | a put at a new height that takes an answer away |
| CheckpointSpec.CullKeepsAnswers | src/checkpoints/checkpoints.cpp:179-210 | culling at a block changes no answer from its height on, keeps every multiple of sixty and everything from the immutable checkpoint up |
| CheckpointSpec.BlockKeepsAnswerIff | src/checkpoints/checkpoints.cpp:173-216 | culling and recording at a block together do not lower the answer at the height it makes exactly when its own checkpoint is harmless |
| CheckpointSpec.RunKeepsAnswersIff | src/checkpoints/checkpoints.cpp:173-216 | over every run of added blocks, none lowers the answer exactly when every checkpoint is harmless |
| CheckpointSpec.RunAnswersRise | src/checkpoints/checkpoints.cpp:173-216 | over every run at rising heights with harmless checkpoints, the immutable height never falls and never disappears |
| CheckpointSpec.RecordingCanTakeAnswerAway | src/checkpoints/checkpoints.cpp:173-216 | a run of one block at height 60 that takes the answer away |
| CheckpointSpec.CullingKeepsImmutable | src/checkpoints/checkpoints.cpp:179-210 | removing any rows below the immutable checkpoint changes no later answer |
| CheckpointSpec.CullRemoves | src/checkpoints/checkpoints.cpp:195-210 | only rows below the end go, and none at a multiple of sixty |
| CheckpointSpec.CullMeans | src/checkpoints/checkpoints.cpp:196-210 | exactly the rows at every fourth height from the start to below the end go, except at multiples of sixty |
| CheckpointSpec.AfterBlockMeans | src/checkpoints/checkpoints.cpp:173-216 | which rows there are after a block: its own checkpoint, and the others except those culled from the first multiple of four among the sixty heights below the immutable checkpoint, or from where culling stopped; nothing changes before height 60 or hard fork 12 |
| CheckpointSpec.LastCullMeans | src/checkpoints/checkpoints.cpp:179-198 | the height from which culling goes on at the next block |
| CheckpointSpec.AtOrBelow | src/blockchain_db/lmdb/db_lmdb.cpp:4264-4284 | the nearest row down from a height, or that there is none |
| CheckpointSpec.AtOrAbove | src/blockchain_db/lmdb/db_lmdb.cpp:4264-4284 | the nearest row up from a height, or that there is none |
| Checkpoints.Table.GetCheckpointsRange | src/blockchain_db/lmdb/db_lmdb.cpp:4235-4321 | the height loop and the cursor loop together give the rows between the two ends in order, up to the limit |
| Checkpoints.Table.GetImmutableCheckpoint | src/blockchain_db/blockchain_db.cpp:343-376 | the answer, and that it meets the definition exactly outside the failing case |
| Checkpoints.Table.BlockAdd | src/checkpoints/checkpoints.cpp:173-216 | the table and the cull height after a block |
| Checkpoints.Table.CullTo | src/checkpoints/checkpoints.cpp:195-210 | the loop removes every fourth height except multiples of sixty |
| Checkpoints.Table.IsAlternativeBlockAllowed | src/checkpoints/checkpoints.cpp:273-299 | height zero is refused; with no checkpoint at or below the chain height other blocks are allowed; else a block is refused exactly when a final checkpoint, or the remembered height, is at or above it; the remembered height never falls, covers every final checkpoint and is otherwise kept; the flag says the highest final checkpoint is a service node one |
| QuorumMesh.FinishedMeshIsFaultTolerant | utils/generate-quorum-matrix.py:118-158 | with any fewer than the required number of nodes gone, any two others are connected within two hops avoiding those, and every node has the required degree |
| QuorumMesh.Mesh.Build | utils/generate-quorum-matrix.py:118-158 | from five nodes on the loop ends within n(n-1)/2 greedy connections; with any fewer than four nodes gone, or two from eleven nodes on, any two others are connected within two hops avoiding those, and every node has that many neighbours |
| QuorumMesh.Mesh.ConnectAll | utils/generate-quorum-matrix.py:118-158 | the loop ends with every pair at the target, each pass having made the best connection and lowered no minimum |
| QuorumMesh.RunLength | utils/generate-quorum-matrix.py:126-158 | every greedy run makes at most n(n-1)/2 connections, one unconnected pair per pass |
| QuorumMesh.GreedyStep | utils/generate-quorum-matrix.py:126-158 | a best connection extends a run, and the minimum does not fall |
| QuorumMesh.Mesh.Improve | utils/generate-quorum-matrix.py:127-158 | one pass makes the first best connection, uses up one unconnected pair and knows the new minimum |
| QuorumMesh.Mesh.ChooseBest | utils/generate-quorum-matrix.py:127-141 | the scan leaves the matrix as it was and, if there is a candidate, picks one with the fewest connections at its two ends, among those one that leaves the fewest pairs at or below the minimum, and of these the first in row order |
| QuorumMesh.Mesh.ScanRow | utils/generate-quorum-matrix.py:130-141 | the same for the candidates up to the end of one row |
| QuorumMesh.Mesh.Try | utils/generate-quorum-matrix.py:135-141 | setting, counting and resetting leaves the matrix as it was and counts pairs as if connected |
| QuorumMesh.Mesh.CountPathsWithinTwo | utils/generate-quorum-matrix.py:38-52 | the direct connection, if any, plus the common neighbours |
| QuorumMesh.Mesh.NeighboursOf | utils/generate-quorum-matrix.py:42-48 | exactly the neighbours in increasing order |
| QuorumMesh.Mesh.MinWithinTwo | utils/generate-quorum-matrix.py:92-99 | the least number of paths over all pairs, reached by some pair |
| QuorumMesh.Mesh.CountNotWithinTwo | utils/generate-quorum-matrix.py:102-108 | the number of pairs with at most so many paths |
| QuorumMesh.Mesh.CountOutgoing | utils/generate-quorum-matrix.py:130-130 | the number of outgoing connections |
| QuorumMesh.Mesh.CountIncoming | utils/generate-quorum-matrix.py:132-132 | the number of incoming connections |
| QuorumMesh.Mesh.constructor | utils/generate-quorum-matrix.py:119-120 | a zero matrix without connections |
| QuorumGraph.FaultTolerance | utils/generate-quorum-matrix.py:27-29 | with t paths between all pairs, fewer than t nodes can go and the others stay within two hops |
| QuorumGraph.Degrees | utils/generate-quorum-matrix.py:27-29 | with t paths between all pairs every node has t neighbours |
| QuorumGraph.TargetReachableIff | utils/generate-quorum-matrix.py:28-29 | some graph meets the target exactly from five nodes on |
| QuorumGraph.BestMeans | utils/generate-quorum-matrix.py:129-141 | the least score, first in row order, spelled out in connections at the ends and pairs left |
| QuorumThirdPass.ThirdConnection | utils/generate-quorum-matrix.py:126-144 | with seven nodes, after 0-1 and 1-2, the third pass connects 2 to 3 and leaves sixteen pairs without a path |
| QuorumGraph.CandidateBeatsStart | utils/generate-quorum-matrix.py:127-128 | every candidate scores below the starting value, so the placeholder is never connected |
| QuorumGraph.CandidateExists | utils/generate-quorum-matrix.py:126-133 | below n-1 paths some pair is still unconnected |
| QuorumGraph.ConnectUsesOnePair | utils/generate-quorum-matrix.py:144-144 | connecting a candidate keeps the diagonal empty and no pair doubly connected, and uses up one pair |
| QuorumGraph.PathsSymmetric | utils/generate-quorum-matrix.py:38-52 | paths are the same both ways |
| QuorumGraph.PathsMonotone | utils/generate-quorum-matrix.py:38-52 | more connections lower no number of paths |
| QuorumGraph.PathsBound | utils/generate-quorum-matrix.py:38-52 | at most n-1 paths, and n-1 in the complete graph |
| QuorumGraph.MinPathsMonotone | utils/generate-quorum-matrix.py:92-99 | more connections do not lower the minimum |
| QuorumGraph.PairsSize | utils/generate-quorum-matrix.py:104-107 | there are n(n-1)/2 pairs |
| BinomialTail.PWin | docs/sent-l2-confirmation/rpc-adversary-sim.cpp:24-33 | the summing loop gives the probability of at least x successes in N draws as defined draw by draw |
| BinomialTail.CoefficientExact | docs/sent-l2-confirmation/rpc-adversary-sim.cpp:16-29 | up to 20, every factorial and product fits 64 bits and the division is exact, giving the binomial coefficient |
| BinomialTail.FactorialSplits | docs/sent-l2-confirmation/rpc-adversary-sim.cpp:27-29 | N! is the coefficient by Pascal's rule times x!(N-x)! |
| BinomialTail.FormulaIsExactly | docs/sent-l2-confirmation/rpc-adversary-sim.cpp:30-30 | the summand is the probability of exactly x successes draw by draw, for every real p |
| BinomialTail.TailSumIsAtLeast | docs/sent-l2-confirmation/rpc-adversary-sim.cpp:28-32 | summing from x gives the tail, which is 1 from x = 0 for every real p |
| BinomialTail.AtLeastBounds | docs/sent-l2-confirmation/rpc-adversary-sim.cpp:23-33 | it lies between 0 and 1 |
| BinomialTail.AtLeastFallsWithX | docs/sent-l2-confirmation/rpc-adversary-sim.cpp:23-33 | it never increases with x |
| BinomialTail.AtLeastGrowsWithP | docs/sent-l2-confirmation/rpc-adversary-sim.cpp:23-33 | it never decreases with p |
| BinomialTail.Coefficient | docs/sent-l2-confirmation/rpc-adversary-sim.cpp:27-29 | the quotient of factorials is the coefficient by Pascal's rule |
| BinomialTail.Summand | docs/sent-l2-confirmation/rpc-adversary-sim.cpp:30-30 | the summand is the probability of exactly that many successes |
| ConfirmationVotes.WholeStopsOnBoundary | docs/sent-l2-confirmation/sent-adversary-sim.cpp:45-71 | with whole scores every finished run ends with the winner exactly at the larger of five more and twice the loser |
| ConfirmationVotes.OvershootBelowOne | docs/sent-l2-confirmation/sent-adversary-sim.py:37-60 | in every variant a settled run ends at or past that boundary by less than one point |
| ConfirmationVotes.SettlingStep | docs/sent-l2-confirmation/sent-adversary-sim.py:40-55 | only a vote for the winner settles a poll, and it passes the boundary by less than its weight |
| ConfirmationVotes.VoteMeans | docs/sent-l2-confirmation/rpc-adversary-sim.cpp:54-67 | which draws confirm, deny or make no block, in numbers of validators |
| ConfirmationVotes.BlockAfterFailures | docs/sent-l2-confirmation/rpc-adversary-sim.cpp:54-67 | after r failed quorums since the last block, a block adds to one score a gain of which 1 + r make a point, or a whole point with whole scores, and nothing to the other |
| ConfirmationVotes.WhatAnOutcomeTakes | docs/sent-l2-confirmation/rpc-adversary-sim.cpp:46-70 | the lead and ratio in a success or failure, at least four further confirming or six denying blocks; and the limit ended it exactly when the bounded variant reached block 31 |
| ConfirmationVotes.BlocksBounded | docs/sent-l2-confirmation/rpc-adversary-sim.cpp:49-68 | in every bounded run both scores together are at most the block number, which is at most 31 |
| ConfirmationVotes.ScoresAndBlocks | docs/sent-l2-confirmation/rpc-adversary-sim.cpp:46-68 | in every run the block number counts the votes and the scores are bounded by them |
| ConfirmationVotes.WholeScores | docs/sent-l2-confirmation/sent-adversary-sim.cpp:45-66 | with whole scores the scores are the votes |
| ConfirmationVotes.SuccessNeedsOwnedQuorum | docs/sent-l2-confirmation/rpc-adversary-sim.cpp:54-58 | no run succeeds without a draw of the leader and seven validators |
| ConfirmationVotes.UnanimousTakesFiveBlocks | docs/sent-l2-confirmation/sent-confirmations.md:138-141 | when every quorum confirms, a run takes four draws and ends at five to nothing in block five |
| ConfirmationVotes.OutcomesPartition | docs/sent-l2-confirmation/rpc-adversary-sim.cpp:70-70 | the three outcomes partition the polls, and only the bounded variant meets the limit |
| ConfirmationVotes.RunPoll | docs/sent-l2-confirmation/rpc-adversary-sim.cpp:46-68 | the loop takes draws exactly while the poll is open, and its variables are the scores of the draws taken |
| ConfirmationVotes.RunSims | docs/sent-l2-confirmation/rpc-adversary-sim.cpp:38-74 | the draws split into finished polls one after the other, the tallies count their outcomes, and they sum to n |
| TxExtra.RoundTripIff | utils/parse-tx-extra.py:36-157 | parsing the printed form of any list of fields gives the list back exactly when every nonce size and name system flag byte is at most nine |
| TxExtra.FieldEaten | utils/parse-tx-extra.py:145-157 | a printed field followed by anything is eaten back, and an unreadable one is refused or comes out different |
| TxExtra.NonceEaten | utils/parse-tx-extra.py:48-56 | the same for nonces |
| TxExtra.NonceCutShort | utils/parse-tx-extra.py:48-56 | a nonce of fifteen bytes comes out as its first nine, with the rest left in the text |
| TxExtra.OnsEaten | utils/parse-tx-extra.py:97-130 | the same for name system fields with any set of optional parts |
| TxExtra.BurnEaten | utils/parse-tx-extra.py:132-141 | every 64-bit burn amount is read back |
| TxExtra.LittleEndianRoundTrip | utils/parse-tx-extra.py:132-136 | little-endian reading inverts little-endian printing at any width |
| TxExtra.DecimalOfByte | utils/parse-tx-extra.py:50-50 | a hex byte read in base ten is right exactly up to nine |
| TxExtra.Dispatch | utils/parse-tx-extra.py:153-157 | the four tags with an eater reach it and every other byte is refused |
| TxExtraWire.PubkeyOnWire | utils/parse-tx-extra.py:36-40 | a key field in digits: 01 and 64 digits |
| TxExtraWire.NonceOnWire | utils/parse-tx-extra.py:43-56 | a nonce in digits: 02, a size up to 9, tag 00 or 01, and the data |
| TxExtraWire.OnsOnWire | utils/parse-tx-extra.py:58-130 | a name system field in digits: 7a, version, type 00 to 05, two hashes, flags up to 9, and the parts they announce in their order |
| TxExtraWire.BurnOnWire | utils/parse-tx-extra.py:132-141 | a burn field in digits: 79 and eight bytes, the last counting most |
| TxExtraWire.SevenCoins | utils/parse-tx-extra.py:4-4 | the burn field of the usage line |
| TxExtraDecoder.Decoder.Decode | utils/parse-tx-extra.py:153-157 | the consuming loop gives the parse of the text it started with, and on the printed form of a list of fields it gives the list back exactly when every field is readable |
| TxExtraDecoder.Decoder.EatTagged | utils/parse-tx-extra.py:153-157 | one round returns the next field and leaves the rest of the text |
| TxExtraDecoder.Decoder.EatPubkeyData | utils/parse-tx-extra.py:36-40 | the key returned and the text left |
| TxExtraDecoder.Decoder.EatNonceData | utils/parse-tx-extra.py:48-56 | the nonce returned and the text left, also for a size of zero and for texts that end early |
| TxExtraDecoder.Decoder.EatGenericOwner | utils/parse-tx-extra.py:81-94 | the owner returned and the text left |
| TxExtraDecoder.Decoder.EatOnsData | utils/parse-tx-extra.py:97-130 | the name system field returned and the text left |
| TxExtraDecoder.Decoder.EatUint64 | utils/parse-tx-extra.py:132-136 | the number returned and the text left, or the refusal of half a byte |
| TxExtraDecoder.Decoder.FromBytes | utils/parse-tx-extra.py:136-136 | the loop over byte pairs gives the little-endian value |
| TxExtraDecoder.Decoder.EatBurnData | utils/parse-tx-extra.py:139-141 | the burn field returned and the text left |

## Left out

- The output blacklist: a pop does not undo it, and nothing modelled reads it.
- Blobs, pruning, hashing and parsing: a transaction or block carries its hash as a field, and its vectors are as long as parsing leaves them.
- Tables after an addition that throws half-way: in runs an operation that throws changes nothing, which in the program is up to the database transaction around it.
- LMDB cursors, batching, statistics and logging; the checkpoint table is a map in which the nearest row is searched, not a sorted file.
- An output index list shorter than the transaction's outputs: undefined in the program, an error in the model.
- Integer widths: heights, counts and amounts are unbounded, except the highest checkpoint height, burn amounts and the factorials, where 64 bits matter.
- StoreRct.RunRunningTotalIff: leaves out runs in which a pop takes off transactions of other blocks; StoreRct.RunTotalsIff covers all. The same holds for StoreRct.RunRunningTotal.
- StoreRefinement.RunMatchesStack: leaves out those runs, after which the store is no stack of blocks, by StoreRefinement.RunRefinesStackIff. What every run keeps is in StoreReach.RunConsistent.
- StoreRefinement.RunSpentIff: leaves out those runs; StoreLedger.RunUnionIff covers all.
- StoreRefinement.RunAcceptsIff: leaves out those runs; StoreAdmission.RunAddsIff covers all.
- StoreRefinement.RunPops: leaves out those runs; StoreReach.RunPopsIff covers all.
- StoreAcceptance.WhyRefused: leaves out stores with gaps in their tables and transactions with unsupported inputs; when those go through is in StoreAdmission.AddTransactionsSucceedsIff and StoreRoundTrip.DroppedTransaction.
- TxExtraWire.NonceOnWire: leaves out sizes above 9, and TxExtraWire.OnsOnWire flags above 9, which the script reads differently; that is in TxExtra.RoundTripIff.
- StoreRefinement.SameStackSameStore: leaves out those runs, which come apart from the replay of their stack.
- Batches of several blocks: an error aborts the whole batch, in the model the one block.
- The memo of the last difficulty by top hash, which skips some queries of the difficulty window, and resetting the chain to a new genesis block.
- BinomialTail.PWin: exact real arithmetic instead of doubles, and at most 20 draws, which is what the factorial asserts.
- ConfirmationVotes.RunPoll: draws are a given list that may run out, and doubles are reals; random numbers and threads are left out.
- The printed probabilities of owning and disrupting a quorum, which are constant expressions.
- Tracing, tables and the generated C++ text of the matrix script.
- TxExtraDecoder.Decoder.Decode: texts are hex digits without letter case; other characters, which the script mostly refuses, are left out.
- TxExtra.RoundTripIff: the printer is the script's own format, with 64-digit signatures, not the serializer of the wallet.
- Detaching checkpoints on a reorganisation, registering hard-coded checkpoints and voting on new ones.
- All other parts of the repository: consensus rules, service node lists, economy tables, wallets, networking, RPC and build scripts.
