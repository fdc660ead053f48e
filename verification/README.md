# Zentra: a verified model of the ledger, the BlockDAG, difficulty and finance

Zentra is a BlockDAG currency node with a built-in exchange. This project models the parts of it that keep
state or do arithmetic and proves what they promise. Each component is a module named after what it models:
operations that change state are methods (of a class where the original has an object), proved equal to
specification functions on values, and what the original promises is proved about those functions.

| file | models |
|---|---|
| `Types`, `Arithmetic`, `Sorting` | machine words, saturation, nonlinear facts, the stable sort |
| `Ledger`, `UtxoSet`, `Undo` | the UTXO map, its in-place class, and undo as an inverse |
| `Validation`, `Conservation`, `Emission`, `Supply` | block acceptance, value conservation, the reward schedule, the supply bound |
| `Chain`, `Reorg` | selected chains and their replay, start-up, and reorganisation with rollback |
| `Bytes`, `Compact`, `Retarget`, `Agreement`, `CheckedBits` | 256-bit byte arithmetic, the compact codec, the retarget rule, miner against validator, the rule over a whole store |
| `Ghostdag`, `Dag`, `Sync` | blue scores and the selected chain, the DAG indexes, the slice served to a syncing peer |
| `Amm`, `Vault` | the liquidity pool, protocol-owned liquidity and the ingest vault |
| `Merkle`, `Mempool`, `CoinSelection` | Merkle roots and proofs, the three-index mempool, the wallet's coin choice |

## What is assumed

- Hashing and signatures are external. A block or transaction value carries its hash, its signature answer and
  its Merkle answer as fields; nothing is assumed about how they are computed. In particular transaction ids may repeat,
  in a block or across blocks. Only `Conservation.Flow`, `Undo.NewNamesAreUndoable` and `Chain.Sound` speak of new names, as a
  sufficient condition, and the results on Merkle trees assume an injective combine (`Merkle.Injective`) and, where it says so, leaves that are
  no values of it (`Merkle.PlainLeaves`).
- A hash is the number its 32 bytes spell, zero being the "no block" sentinel. Integer widths are explicit
  (`u32`, `u64`, `u128`), and saturating, wrapping and checked operations are written out.
- The block store is a map whose writes succeed; every method is sequential; clocks and sizes are parameters.

## Where the code and its words differ

- The retarget rule is documented as moving by at most a factor of 3. After its down-scaling the numerator is always
  100 and the denominator lies in [33, 300], so the upward factor is 100/33 (`Retarget.RatioMeaning`).
- The compact form keeps a target to one part in 2^15 exactly when the target is below 2^255 (`Compact.FaithfulIff`).
- Disconnecting a block is an exact inverse of connecting it if and only if the burn counter did not saturate, no live
  entry was overwritten and no entry taken out for good is credited back as a merged coinbase
  (`Undo.DisconnectRestoresIff`). Accepted blocks can fail the second condition (`Validation.RepeatedCoinbaseIsNotUndone`)
  and the third (`Validation.RemergedSpendIsNotUndone`). A reorganisation needs less: that nothing live at the fork is lost
  by the blocks together, which is exact (`Chain.OffIff`, `Reorg.RepeatedPairComesOff`).
- The coinbase check compares saturated sums. A block with new names conserves value if and only if the exact sums pass as
  well (`Conservation.BlockConservesValue`), as they do when each output sum fits a word. For a single transfer
  `Conservation.TransferBreaksIff` says when some block of it fails, and `Conservation.SaturatedSumsBreakConservation` is
  an accepted block whose coinbase makes it fail.
- The rule that coinbases mature is documented for every coinbase. It is asked of entries of the set only, so a block may
  spend its own coinbase at once (`Validation.OwnCoinbaseIsSpendable`); a coinbase below has to be ten scores old
  (`Reorg.SpendsWhatIsDue`).
- A slower chain is to get an easier target. From an average target of 1 or 2 a fast chain gets target 0, which is replaced
  by the genesis target; `Retarget.LongerIsEasierIff` says that these are the only averages for which this happens.
- Parents may be named twice. A repeated blue parent counts twice in the score (`Ghostdag.RepeatIsBlueAgain`,
  `Ghostdag.RepeatedParentRaisesScore`); when selected parent, blues and reds partition the parents is said by
  `Ghostdag.PartitionIff`.
- The miner builds on all tips and follows the selected one; validation follows the last tip of the highest score. When
  these are the same tip is said by `CheckedBits.HeaviestIsSelectedIff`; `CheckedBits.TieSplitsMinerAndValidator` is a tie
  in which they ask for different bits.
- A deposit into the pool that reports failure leaves the pool unchanged except in exactly one case, in which the ZTR
  side has been taken in (`Amm.FailedDepositIsFree`, `Amm.FailedDepositKeepsZtr`).
- The integer square root is the floor root of every word but the largest, on which it aborts (`Amm.IntegerSqrt`).
- The half-percent ingest fee is exact just when its multiplication does not wrap (`Vault.FeeIsExactIff`), and a request
  keeps the vault's books just when it is not submitted as already minted (`Vault.SubmitKeepsBooksIff`); what the books
  then show is said by `Vault.RunBalances`.
- Lists of different lengths can have the same Merkle root (`Merkle.RepeatedLastKeepsRoot`); exactly when two roots agree is
  said by `Merkle.RootsAgree`.

## Model

| member | source | states |
|---|---|---|
| `UtxoSets.UtxoSet.ApplyTransaction` | crates/zentra-core/src/utxo.rs:107-151 | the loops over inputs and outputs leave exactly the specified state, the half-spent one included when an input is missing; each Standard output is live with its amount, its address, the given height and whether the transaction is a coinbase |
| `UtxoSets.UtxoSet.ApplyBlock` | crates/zentra-core/src/utxo.rs:67-74 | transactions apply in order until one fails; the undo data is what each took |
| `UtxoSets.UtxoSet.ApplyMergeCoinbase` | crates/zentra-core/src/utxo.rs:83-104 | exactly the absent Standard outputs of a leading coinbase are credited and reported, each with its amount, its address, the merged block's score and marked as coinbase |
| `UtxoSets.UtxoSet.UndoTransaction` | crates/zentra-core/src/utxo.rs:163-183 | the body of the reverse loop: outputs go, burns are taken back, spent entries return |
| `UtxoSets.UtxoSet.DisconnectBlock` | crates/zentra-core/src/utxo.rs:154-192 | transactions are undone last first, merged coinbases go last; a count mismatch changes nothing |
| `Undo.SpendMeaning` | crates/zentra-core/src/utxo.rs:112-121 | inputs can be spent if and only if all are present and distinct, and then exactly their entries are taken |
| `Undo.ApplyTxMeaning` | crates/zentra-core/src/utxo.rs:107-151 | a transaction applies if and only if its inputs can be spent; the set loses what it spends, gains what it creates, and keeps the rest |
| `Undo.ApplyTxFields` | crates/zentra-core/src/utxo.rs:107-151 | the same field by field: when a transaction applies, which entries it hands out for undo and in which order, which outpoints are live afterwards and with which amount, owner, height and coinbase mark |
| `Undo.UndoTxInverse` | crates/zentra-core/src/utxo.rs:163-183 | undone, an applied transaction has lost exactly what it created over a live entry that it did not spend |
| `Undo.ApplyTxsMeaning` | crates/zentra-core/src/utxo.rs:67-74 | of what the set held, a block takes out exactly what it spends and does not create again, and it alters nothing it does not touch; whatever else is there it created |
| `Undo.UndoTxsInverse` | crates/zentra-core/src/utxo.rs:163-183 | undone, a block's transactions have lost exactly the old entries they overwrote unspent, in-block spends included |
| `Undo.UndoTxsAt` | crates/zentra-core/src/utxo.rs:163-183 | at each outpoint undoing gives the old entry unless it was overwritten, whatever the set holds at touched outpoints |
| `Undo.DisconnectLost` | crates/zentra-core/src/utxo.rs:154-192 | disconnecting from a ledger that lacks some outpoints: exactly which of the old ones are missing afterwards |
| `Undo.CreditAllMeaning` | crates/zentrad/src/node.rs:1096-1101 | crediting merged blocks adds exactly the named absent outpoints and touches nothing else |
| `Undo.CreditFields` | crates/zentra-core/src/utxo.rs:83-104 | which outputs of one merged coinbase enter the set, and every field of their entries |
| `Undo.DisconnectRestoresIff` | crates/zentra-core/src/utxo.rs:154-192 | for every block that connects: disconnecting restores map and burn counter exactly if and only if the counter did not saturate, no live entry was overwritten, and no entry taken out for good was credited back |
| `Undo.NewNamesAreUndoable` | crates/zentra-core/src/utxo.rs:154-192 | outpoints new to the set, and no spend of a merged coinbase, suffice for exact undo |
| `Validation.SumOutputs` | crates/zentrad/src/node.rs:1031-1034 | the saturating fold is the capped sum |
| `Validation.ScanInputs` | crates/zentrad/src/node.rs:1002-1027 | accepts exactly inputs that are unspent, distinct, and either a live entry of the signer's, ten scores old if a coinbase, or a coin of the signer's that the block made; a reported fault is real |
| `Validation.ValidateBlockTransactions` | crates/zentrad/src/node.rs:980-1066 | no error if and only if the block follows the rules, stated over its own fields; each error is justified |
| `Validation.AcceptableIff` | crates/zentrad/src/node.rs:980-1066 | the acceptable blocks are exactly those whose inputs are each the signer's, mature, from the set or from the last earlier transaction of that name, and spent once, whose signatures and Merkle root hold, whose only coinbase is first, and whose sums pass |
| `Validation.FaultFields` | crates/zentrad/src/node.rs:1002-1024 | what each input fault says of the outpoint, the entry and the signer, both directions |
| `Validation.JustifiedIsBroken` | crates/zentrad/src/node.rs:980-1066 | each reported reason names a rule that the block breaks |
| `Validation.OwnCoinbaseIsSpendable` | crates/zentrad/src/node.rs:1009-1017 | an accepted block that spends its own coinbase at once |
| `Validation.AcceptableApplies` | crates/zentrad/src/node.rs:989-1048 | every prefix of an acceptable block applies: the spent and created sets track the evolving map |
| `Validation.ValidatedBlockNeverFails` | crates/zentrad/src/node.rs:1192-1211 | connecting a validated block cannot fail, so none is ever half applied |
| `Validation.RepeatedCoinbaseIsNotUndone` | crates/zentra-core/src/utxo.rs:154-192 | an accepted block that repeats an old coinbase, whose undo loses the live output |
| `Validation.RemergedSpendIsNotUndone` | crates/zentra-core/src/utxo.rs:186-191 | an accepted block that spends a coinbase it merges again, whose undo loses the entry |
| `Conservation.TakenIsInSum` | crates/zentrad/src/node.rs:1009-1025 | the entries applying takes add up to the sum validation looked up |
| `Conservation.Flow` | crates/zentra-core/src/utxo.rs:107-151 | for outpoints new to the set value before plus outputs equals value after plus inputs plus burns, for every prefix of a block |
| `Conservation.FlowBound` | crates/zentra-core/src/utxo.rs:107-151 | for every accepted block, overwriting or not, value after plus the inputs validation counted plus burns is at most value before plus outputs |
| `Conservation.FeesAreCovered` | crates/zentrad/src/node.rs:1031-1038 | if each output sum fits a word, all outputs plus counted fees are at most the inputs plus the outputs of the coinbase, although the fees saturate |
| `Conservation.BlockConservesValue` | crates/zentrad/src/node.rs:995-1063 | an accepted block raises live value plus burns by at most its subsidy if the exact sums of the coinbase check cover its outputs, also when it spends its own coinbase or overwrites live entries; with new names, only if they do |
| `Conservation.FittingOutputsAreCovered` | crates/zentrad/src/node.rs:1031-1063 | they do if each output sum fits a word |
| `Conservation.RewardCheckIsExact` | crates/zentrad/src/node.rs:1050-1063 | when no sum saturates the reward check passes if and only if the outputs are covered, and with new names if and only if live value and burns grow by at most the subsidy |
| `Conservation.TransferBreaksIff` | crates/zentrad/src/node.rs:1031-1037 | a transfer is in some accepted block of its own that raises value beyond the subsidy if and only if its outputs exceed a word and are not all burned |
| `Conservation.SaturatedSumsBreakConservation` | crates/zentrad/src/node.rs:1050-1063 | a concrete accepted block whose saturated sums let value grow beyond the subsidy |
| `Conservation.MergeTotal` | crates/zentra-core/src/utxo.rs:83-104 | crediting merged coinbases adds exactly the separately counted merge credit |
| `Emission.TotalEmittedAtHeight` | crates/zentra-consensus/src/emission.rs:47-65 | the epoch loop equals the height-by-height capped sum, saturations included |
| `Emission.BlockReward` | crates/zentra-consensus/src/emission.rs:25-44 | the reward is what the capped total grows by at that height |
| `Emission.RewardHalves` | crates/zentra-consensus/src/emission.rs:25-44 | before the cap a height adds the initial reward in the first interval, half of what the same height one interval earlier added, and nothing from interval 64 on |
| `Emission.EpochSum` | crates/zentra-consensus/src/emission.rs:52-62 | within an epoch every height adds the same reward |
| `Emission.FlatTail` | crates/zentra-consensus/src/emission.rs:25-34 | nothing is added after the last rewarding epoch |
| `Emission.EmittedGrows` | crates/zentra-consensus/src/emission.rs:47-65 | totals never fall as the height rises and never exceed the maximum supply |
| `Emission.CapNeverBinds` | crates/zentra-consensus/src/emission.rs:15-21 | with the network's constants the uncapped total stays below the maximum supply at every height |
| `Chain.ChainTail` | crates/zentrad/src/node.rs:802-824 | two selected chains that share a block share everything below it |
| `Chain.ChainIsWalk` | crates/zentrad/src/node.rs:802-824 | a selected chain starts at its tip and goes on to the recorded selected parent, without a record to the first header parent, until there is none |
| `Chain.ChainNoRepeats` | crates/zentrad/src/node.rs:802-824 | a selected chain visits no block twice |
| `Chain.ReplayStaysInNames` | crates/zentrad/src/node.rs:187-200 | a replayed ledger holds only outpoints its chain's blocks and merges name |
| `Chain.MergesPaid` | crates/zentrad/src/node.rs:1076-1101 | crediting merges adds exactly the Standard outputs of leading coinbases of stored blocks listed among the recorded blues, where absent, with the amount, address and score of the first block that pays each |
| `Chain.ReplayStep` | crates/zentrad/src/node.rs:187-200 | one block of the replay: its own transactions, then exactly what its recorded blues are paid |
| `Chain.ReplayEntries` | crates/zentra-core/src/utxo.rs:126-133 | every live entry of a replayed ledger is an output of a block on the chain or of a merged coinbase, with that block's score and the coinbase mark of its transaction |
| `Chain.SoundIsUndoable` | crates/zentrad/src/node.rs:1089-1103 | blocks that name their outputs anew and spend no coinbase they merge are undone exactly, each in its place |
| `Chain.TipInverse` | crates/zentrad/src/node.rs:1089-1103 | connecting the tip is replaying it, and disconnecting it gives the replay below if and only if the tip is undoable in its place |
| `Chain.OffIff` | crates/zentrad/src/node.rs:1168-1187 | taking any number of blocks off a replayed chain gives the replay below them if and only if none of what they lose together is live there and no burn was cut off |
| `Chain.UndoableKeepsFork` | crates/zentrad/src/node.rs:1168-1187 | this is so if each block is undoable in its own place, which is not necessary |
| `Reorg.StartUp` | crates/zentrad/src/node.rs:158-200 | start-up leaves exactly the replay of the stored path, and the genesis block applied if there is none |
| `Reorg.ReplayStored` | crates/zentrad/src/node.rs:187-200 | one block of start-up: what its transactions leave, an apply that fails included, and exactly what the stored blocks among its recorded blues are paid |
| `Reorg.WalkDown` | crates/zentrad/src/node.rs:163-179 | the walk collects stored blocks, each followed by its recorded selected parent or, without one, its first header parent, down to the first missing block |
| `Reorg.PathIsChainToGap` | crates/zentrad/src/node.rs:163-179 | the stored path is the selected chain down to its first gap, and all of it if and only if no block is missing |
| `Reorg.CreditMerges` | crates/zentrad/src/node.rs:1096-1101 | exactly the absent Standard outputs of leading coinbases of stored blocks listed among the recorded blues are credited, and those outpoints are collected |
| `Reorg.ForkShares` | crates/zentrad/src/node.rs:1129-1160 | below the fork two selected chains are equal |
| `Reorg.ZentraNode.GetSelectedChain` | crates/zentrad/src/node.rs:802-824 | the loop ends and returns the selected chain, each step to the recorded selected parent or the first header parent |
| `Reorg.ZentraNode.ApplyBlockWithMerges` | crates/zentrad/src/node.rs:1089-1103 | equals the specified connect; after the block's own transactions exactly the absent coinbase outputs of stored recorded blues are added, and they are the merge undo data |
| `Reorg.ZentraNode.FindFork` | crates/zentrad/src/node.rs:1129-1160 | both search loops find how far each chain is above the fork |
| `Reorg.ZentraNode.DisconnectAll` | crates/zentrad/src/node.rs:1168-1187 | the loop stops exactly at the first missing block or undo record, and leaves the ledger that `Chain.OffIff` is about |
| `Reorg.ZentraNode.ConnectOne` | crates/zentrad/src/node.rs:1191-1216 | a block connects if and only if it is present and valid in its place, and otherwise nothing changes |
| `Reorg.ZentraNode.ConnectAll` | crates/zentrad/src/node.rs:1189-1218 | stops exactly at the first missing or invalid block, with the replay of what was connected |
| `Reorg.ZentraNode.DisconnectConnected` | crates/zentrad/src/node.rs:1221-1227 | the first rollback loop takes exactly the new blocks that were connected off again, whatever that leaves |
| `Reorg.ZentraNode.ConnectDisconnected` | crates/zentrad/src/node.rs:1228-1234 | from the right ledger at the fork the second rollback loop restores the old replay with the same undo data |
| `Reorg.ZentraNode.Move` | crates/zentrad/src/node.rs:1162-1238 | from the fork on: the new replay on success if and only if the move is possible; the old ledger and records on failure, if what was undone on the way came out right |
| `Reorg.ZentraNode.Reorganize` | crates/zentrad/src/node.rs:1105-1239 | succeeds if and only if the move is possible, and then the ledger is the replay of the new chain; otherwise it is exactly the starting one, if the ledger comes out right where the way back begins; only the ledger at the fork is asked to come out right |
| `Reorg.CanMoveIff` | crates/zentrad/src/node.rs:1162-1219 | a move is possible if and only if what comes off is stored with undo data and what goes on is stored and follows the rules on the replay below it |
| `Reorg.SpendsWhatIsDue` | crates/zentrad/src/node.rs:1002-1024 | whatever a valid block spends is an output, the signer's, of an earlier transaction of its own or of a block below it, and a coinbase below is at least ten scores old |
| `Reorg.BlueIsPaidRedIsNot` | crates/zentrad/src/node.rs:1092-1103 | a block with one merged blue and one red, after which the coinbase of the blue is live and that of the red is not |
| `Reorg.RepeatedPairComesOff` | crates/zentrad/src/node.rs:1162-1187 | two accepted blocks with one repeated coinbase, of which the upper is not undoable in its place, come off exactly |
| `Reorg.MoveKeepsValid` | crates/zentrad/src/node.rs:1189-1219 | successful moves keep the whole selected chain valid, each block in its place |
| `Supply.StoreIsRanked` | crates/zentrad/src/node.rs:1301-1339 | a store built by connecting blocks has falling scores on every walk down, start-up's included |
| `Supply.StepWorth` | crates/zentrad/src/node.rs:1050-1063 | one more valid block whose exact sums cover it adds at most its subsidy and its merge credit |
| `Supply.FittingChainIsCovered` | crates/zentrad/src/node.rs:1031-1063 | on a valid chain whose output sums fit a word, the exact sums cover every block |
| `Supply.SelectedRises` | crates/zentra-consensus/src/ghostdag.rs:83-93 | scores rise strictly along a selected chain |
| `Supply.SupplyBound` | crates/zentra-consensus/src/emission.rs:47-65 | live value plus burns is at most the total emitted at the tip's height plus one, plus merge credits, for every valid chain whose exact sums cover its blocks |
| `Supply.FollowTips` | crates/zentrad/src/node.rs:1341-1352 | over every run of tip changes up to the first that fails, each keeping its own fork, the ledger is the replay of a valid chain to the tip reached and its worth is within the schedule |
| `Supply.SupplyCapped` | crates/zentra-consensus/src/emission.rs:15-21 | under the same condition live value stays below the maximum supply plus merge credits |
| `Supply.GenesisIsAcceptable` | crates/zentrad/src/node.rs:181-185 | the genesis block, applied unvalidated, satisfies the acceptance rules |
| `Bytes.AddTargets` | crates/zentra-consensus/src/difficulty.rs:193-202 | the carry loop computes a + b modulo 2^256 |
| `Bytes.DivTarget` | crates/zentra-consensus/src/difficulty.rs:204-217 | the long division computes the floor quotient |
| `Bytes.MulDivTarget` | crates/zentra-consensus/src/difficulty.rs:219-243 | computes the floor of t times num over den, and all ones exactly when the product reaches 2^256 |
| `Bytes.LexIsLess` | crates/zentra-consensus/src/difficulty.rs:117-123 | byte-wise order is numeric order |
| `Compact.TargetToBits` | crates/zentra-consensus/src/difficulty.rs:245-271 | the byte loop computes the compact form of the number |
| `Compact.TargetFromBits` | crates/zentra-core/src/header.rs:43-79 | filling the byte array computes the number that the bits denote |
| `Compact.DecodeSteps` | crates/zentra-core/src/header.rs:43-79 | the value of the bits for each top byte, from the low 23 bits |
| `Compact.DecodedIsTruncated` | crates/zentra-core/src/header.rs:43-79 | a decoded target loses nothing when it is encoded again |
| `Compact.RoundTripIsTrunc` | crates/zentra-core/src/header.rs:43-79 | below 2^255 decoding the encoding clears low bytes and does nothing else |
| `Compact.RoundTripOverflows` | crates/zentra-consensus/src/difficulty.rs:265-270 | from 2^255 on the value comes back 256 times too small |
| `Compact.FaithfulIff` | crates/zentra-consensus/src/difficulty.rs:245-271 | a positive target survives to one part in 2^15, and encodes to the same bits again, if and only if it is below 2^255 |
| `Compact.RoundTripMonotone` | crates/zentra-consensus/src/difficulty.rs:245-271 | larger targets round-trip to no smaller ones |
| `Retarget.RatioMeaning` | crates/zentra-consensus/src/difficulty.rs:97-112 | numerator 100, denominator in [33, 300], for every window and timespan |
| `Retarget.AverageRange` | crates/zentra-consensus/src/difficulty.rs:84-90 | the sum of targets in range never wraps and the average is positive and no easier than genesis |
| `Retarget.AdjustedRange` | crates/zentra-consensus/src/difficulty.rs:114-115 | the product never saturates and the result lies between a third and 100/33 of the average |
| `Retarget.NextTargetIs` | crates/zentra-consensus/src/difficulty.rs:78-126 | the next target from the oldest and newest timestamps: the span clamped to a third and three times n minutes, the scaled ratio and its floors, the cap and the zero case |
| `Retarget.SumChanges` | crates/zentra-consensus/src/difficulty.rs:84-90 | every entry but the oldest counts the same in the sum of targets, and the oldest does not count |
| `Retarget.OnScheduleKeepsTarget` | crates/zentra-consensus/src/difficulty.rs:78-126 | blocks of one target that took exactly n minutes from the oldest to the newest leave the target as it is |
| `Retarget.FastChainIsHarder` | crates/zentra-consensus/src/difficulty.rs:92-126 | at most a third of that time gives a third of the average, or the genesis target if that is nothing |
| `Retarget.SlowChainIsEasier` | crates/zentra-consensus/src/difficulty.rs:92-126 | at least three times that time gives 100/33 of the average, but no more than the genesis target |
| `Retarget.NextInRange` | crates/zentra-consensus/src/difficulty.rs:78-126 | from targets in (0, genesis] the next one is in (0, genesis] |
| `Retarget.LongerIsEasier` | crates/zentra-consensus/src/difficulty.rs:92-126 | for an average of at least 3 a longer timespan never gives a harder target |
| `Retarget.LongerIsEasierIff` | crates/zentra-consensus/src/difficulty.rs:92-126 | a longer timespan never gives a harder target if and only if the average is 0 or at least 3 |
| `Retarget.LaterBlockIsEasier` | crates/zentra-consensus/src/difficulty.rs:92-126 | the same for a whole history whose newest block came later |
| `Retarget.LaterStartIsHarder` | crates/zentra-consensus/src/difficulty.rs:92-126 | a later oldest entry never gives an easier target |
| `Retarget.RunStaysInRange` | crates/zentrad/src/node.rs:897-904 | over every run of blocks mined at the requested bits every later target stays in range |
| `Retarget.FastBlockIsHarder` | crates/zentra-consensus/src/difficulty.rs:78-126 | two simultaneous blocks at the genesis target make the next one harder |
| `CheckedBits.StoredBlocksInRange` | crates/zentrad/src/node.rs:897-904 | in every store whose blocks carry the bits validation expects of their parents, every non-genesis block and every lane history is in range |
| `CheckedBits.HeaviestIsLower` | crates/zentrad/src/node.rs:831-841 | in a store that GhostDAG built the heaviest parent has the lower rank that StoredBlocksInRange asks for |
| `Retarget.DifficultyEngine.RecordBlock` | crates/zentra-consensus/src/difficulty.rs:69-75 | appends the block and keeps exactly the newest window + 1 entries in order |
| `Retarget.DifficultyEngine.NextDifficulty` | crates/zentra-consensus/src/difficulty.rs:78-126 | the byte-level rule computes the specified bits |
| `Agreement.RecordAllKeepsNewest` | crates/zentra-consensus/src/difficulty.rs:69-75 | recording any list leaves its newest entries |
| `Agreement.SameWindow` | crates/zentrad/src/node.rs:848-874 | the last twenty blocks of a lane fill the window as its whole history does |
| `Agreement.LaneHistoryLength` | crates/zentrad/src/node.rs:848-874 | a lane's history has as many entries as the selected chain has blocks of the lane above its first missing one |
| `Agreement.LaneHistoryAt` | crates/zentrad/src/node.rs:848-874 | each of those blocks has its own timestamp and bits there, the nearer to the tip the later in the list |
| `Agreement.HeaviestIsMaximal` | crates/zentrad/src/node.rs:831-841 | the parent the loop picks is known and none has a higher score |
| `Agreement.CalculateExpectedDifficulty` | crates/zentrad/src/node.rs:827-881 | the validator's bits are those of the lane history below the heaviest parent |
| `Agreement.DifficultyManager.RebuildDifficultyHistory` | crates/zentrad/src/node.rs:1425-1456 | after a rebuild each lane's engine holds the newest entries of that lane's history |
| `Agreement.MinerMeetsValidator` | crates/zentrad/src/node.rs:827-881 | the rebuilt manager asks for the bits of its tip's lane history and validation for those of the heaviest parent's, which are the same whenever that parent is the tip |
| `CheckedBits.HeaviestIsSelectedIff` | crates/zentrad/src/node.rs:831-841 | among the tips the heaviest parent is the selected tip if and only if no other tip of its score stands after it |
| `CheckedBits.TieSplitsMinerAndValidator` | crates/zentrad/src/node.rs:386-451 | two tips tied in score and work for which the miner's own block carries bits that validation rejects |
| `Ghostdag.SelectedIsHighest` | crates/zentra-consensus/src/ghostdag.rs:97-109 | the selected parent is a parent and none has a higher score |
| `Ghostdag.SelectedIsLastHighest` | crates/zentra-consensus/src/ghostdag.rs:97-109 | and of the parents with that score it is the last one named |
| `Ghostdag.ClassifyMergeset` | crates/zentra-consensus/src/ghostdag.rs:115-151 | the loop computes the specified blues and reds |
| `Ghostdag.EstimateAnticoneSize` | crates/zentra-consensus/src/ghostdag.rs:157-177 | the estimate counts the blocks of the blue set that are neither the block, nor its selected parent, nor among its blues and reds |
| `Ghostdag.ProcessBlock` | crates/zentra-consensus/src/ghostdag.rs:56-94 | equals the specified record of a block |
| `Ghostdag.ClassifyPartition` | crates/zentra-consensus/src/ghostdag.rs:115-151 | blues and reds are the candidates, each as often as it was named |
| `Ghostdag.BlueIff` | crates/zentra-consensus/src/ghostdag.rs:131-148 | a block is blue if and only if it passed the size test at a turn of its own, and red if and only if it failed at one |
| `Ghostdag.RecordTurnByTurn` | crates/zentra-consensus/src/ghostdag.rs:56-151 | for every parent but the selected one: blue if and only if at most k blocks of the blue set at its turn are unknown to its record, that set being the selected block's selected parent and blues and what earlier blue parents brought; blues and reds stand in the order of the parents |
| `Ghostdag.UnknownBlocksDecide` | crates/zentra-consensus/src/ghostdag.rs:131-148 | a parent to which n + 1 blocks of the blue set are unknown is blue if n + 1 is at most k and red otherwise |
| `Ghostdag.OneUnknownBlock` | crates/zentra-consensus/src/ghostdag.rs:131-148 | the same in a built DAG of five blocks, where the score shows it |
| `Ghostdag.BuildIsConsistent` | crates/zentra-consensus/src/ghostdag.rs:56-94 | in every DAG built parents first, repeated parents included, each record stays what its parents' records give |
| `Ghostdag.BlockStructure` | crates/zentra-consensus/src/ghostdag.rs:66-94 | a block's score exceeds every parent's; blues and reds are the parents other than the selected one, each as often as it is named |
| `Ghostdag.PartitionIff` | crates/zentra-consensus/src/ghostdag.rs:66-94 | selected parent, blues and reds partition the parents if and only if the selected one is named once; none is repeated among blues and reds if and only if no other parent is |
| `Ghostdag.RepeatIsBlueAgain` | crates/zentra-consensus/src/ghostdag.rs:131-148 | a blue parent named twice in a row is blue twice |
| `Ghostdag.RepeatedParentRaisesScore` | crates/zentra-consensus/src/ghostdag.rs:83-93 | parents [7, 8] give score 3 where [7, 7, 8] give 4 |
| `Ghostdag.ScoreAndWork` | crates/zentra-consensus/src/ghostdag.rs:83-93 | work is the selected chain's length and score minus work the number of blues merged along it |
| `Ghostdag.GetSelectedChain` | crates/zentra-consensus/src/ghostdag.rs:180-199 | the loop ends at a block without parents |
| `DagGraphs.DagGraph.InsertBlock` | crates/zentra-core/src/dag.rs:35-68 | inserting a new block with known parents keeps tips, children and caches in step with the parent relation; the tips are exactly the blocks no stored block names as a parent |
| `DagGraphs.DagGraph.AddChildRelation` | crates/zentra-core/src/dag.rs:111-119 | appends the child once, in store and cache |
| `DagGraphs.DagGraph.GetChildren` | crates/zentra-core/src/dag.rs:99-108 | answers alike through the cache and the store |
| `DagGraphs.DagGraph.ChildrenOf` | crates/zentra-core/src/dag.rs:99-108 | lists exactly the blocks that name the given one, each once |
| `DagGraphs.DagGraph.IsAncestor` | crates/zentra-core/src/dag.rs:154-180 | the search ends on every parent relation and decides reflexive-transitive reachability |
| `DagGraphs.ReachesIff` | crates/zentra-core/src/dag.rs:154-180 | a block is reached from itself, and otherwise just from a block one of whose parents reaches it |
| `DagGraphs.DagGraph.GetSelectedTip` | crates/zentra-core/src/dag.rs:127-150 | the answer beats every other tip with a header, by higher score, then higher work, then lower hash; none if no tip has one |
| `DagGraphs.BestIgnoresOrder` | crates/zentra-core/src/dag.rs:127-150 | the selected tip is the same for every ordering of the tips |
| `Sync.ScoresRise` | crates/zentrad/src/node.rs:1309-1319 | headers that carry the computed scores have scores rising from parents to children |
| `Sync.ClosedIsComplete` | crates/zentrad/src/node.rs:1517-1527 | a search that stops at low blocks still holds every block above the height |
| `Sync.CollectAbove` | crates/zentrad/src/node.rs:1517-1527 | collects exactly the blocks above the height, each once |
| `Sync.SliceInOrder` | crates/zentrad/src/node.rs:1528-1531 | every prefix in score order has each wanted parent before its child |
| `Sync.BlocksAbove` | crates/zentrad/src/node.rs:1510-1532 | complete without the limit; with any limit the lowest blocks, parents first |
| `Amm.IntegerSqrt` | crates/zentra-finance/src/amm.rs:407-418 | terminates with the floor root for every word but the largest |
| `Amm.PayoutIsLargest` | crates/zentra-finance/src/amm.rs:113-133 | the payout is the largest that does not lower the product of the reserves, the fee of 20/10000 set aside |
| `Amm.TradeFields` | crates/zentra-finance/src/amm.rs:105-169 | when a swap goes through, which error is reported otherwise, and that one more unit paid would lower the product with the fee of 20/10000 set aside |
| `Amm.DepositShare` | crates/zentra-finance/src/amm.rs:267-284 | new tokens never exceed the share of the reserves that was paid in |
| `Amm.DepositTokens` | crates/zentra-finance/src/amm.rs:263-288 | a deposit mints the most tokens that exceed neither side's share, the first one the floor root of the product; and exactly when it mints any |
| `Amm.DestroyedTokens` | crates/zentra-finance/src/amm.rs:338-395 | an injection destroys the smaller of the two sides' shares, or the one that is not zero |
| `Amm.TokensFit` | crates/zentra-finance/src/amm.rs:290-301 | the token counter cannot overflow before a reserve does |
| `Amm.StepKeeps` | crates/zentra-finance/src/amm.rs:105-396 | every call, failing ones included, keeps the tokens backed and lowers neither the product nor its share per token squared |
| `Amm.RunKeeps` | crates/zentra-finance/src/amm.rs:105-396 | the same over every run of swaps, deposits and injections |
| `Amm.NoFreeValue` | crates/zentra-finance/src/amm.rs:105-396 | a run that leaves one reserve no higher leaves the other no lower |
| `Amm.OutAndBack` | crates/zentra-finance/src/amm.rs:105-244 | swapping out and straight back returns no more than was put in |
| `Amm.FailedDepositIsFree` | crates/zentra-finance/src/amm.rs:290-301 | a failed deposit changes nothing if and only if not just the zUSD addition overflowed |
| `Amm.FailedDepositKeepsZtr` | crates/zentra-finance/src/amm.rs:290-301 | a run from the empty pool after which a failed deposit keeps the ZTR |
| `Amm.LiquidityPool.SwapZtrToZusd` | crates/zentra-finance/src/amm.rs:105-169 | equals the swap step and moves exactly the two reserves, volume and fees; the guards on the product and on the output's width never fire |
| `Amm.LiquidityPool.SwapZusdToZtr` | crates/zentra-finance/src/amm.rs:179-244 | equals the swap step in the other direction |
| `Amm.LiquidityPool.TokensFor` | crates/zentra-finance/src/amm.rs:263-288 | the tokens a deposit mints; neither division is by zero |
| `Amm.LiquidityPool.AddLiquidity` | crates/zentra-finance/src/amm.rs:258-312 | equals the deposit step, every error with the state it leaves |
| `Amm.LiquidityPool.InjectProtocolLiquidity` | crates/zentra-finance/src/amm.rs:338-395 | equals the injection step, saturations included; its tokens never circulate |
| `Vault.FeeIsExactIff` | crates/zentra-finance/src/pol.rs:100-101 | the fee is the exact half percent if and only if the multiplication does not wrap |
| `Vault.ProtocolOwnedLiquidity.ProcessCrossChainIngest` | crates/zentra-finance/src/pol.rs:90-125 | net and fee add up to the gross amount, the pool gets the fee, and the injection never aborts |
| `Vault.ProtocolOwnedLiquidity.ProcessSwapFee` | crates/zentra-finance/src/pol.rs:137-155 | the counters move with the pool, and nothing moves when the injection aborts |
| `Vault.OmniVault.SubmitIngest` | crates/zentra-finance/src/vault.rs:126-153 | appends the request exactly when its amount is positive and its hash is new |
| `Vault.OmniVault.ValidateIngest` | crates/zentra-finance/src/vault.rs:169-221 | a pending request is validated exactly with enough signatures, counted in 16 bits, and no invalid one |
| `Vault.OmniVault.MintZusd` | crates/zentra-finance/src/vault.rs:236-281 | a validated request is minted, net of the fee, and its status moves on |
| `Vault.OmniVault.BurnZusd` | crates/zentra-finance/src/vault.rs:297-339 | burns exactly what is positive and circulating, and adds it to the burned total |
| `Vault.RunBalances` | crates/zentra-finance/src/vault.rs:126-339 | after every run minted plus fees is the gross of the requests minted here, which leaves out those submitted as already minted; hashes are distinct and burned is at most minted |
| `Vault.BurnsAddUp` | crates/zentra-finance/src/vault.rs:297-339 | over every run the burned total is the sum of the burns that were still in circulation |
| `Vault.SubmitKeepsBooksIff` | crates/zentra-finance/src/vault.rs:126-153 | a submission keeps the books if and only if the request is not already marked as minted |
| `Vault.BurnCountersAgree` | crates/zentra-finance/src/pol.rs:103-110 | the engine's burn counter is the pool's over every run in which nobody else injects |
| `Vault.PaidAtMostOnce` | crates/zentra-finance/src/vault.rs:236-281 | over every run each external transaction is paid out at most once |
| `Vault.OnlyApprovedLeavePending` | crates/zentra-finance/src/vault.rs:184-212 | a request that came in as pending and is so no more had a validation with threshold signatures and none invalid |
| `Merkle.ProofVerifies` | crates/zentra-core/src/merkle.rs:40-84 | for every list and index the generated proof leads from the leaf to the root |
| `Merkle.RootOfThree` | crates/zentra-core/src/merkle.rs:9-34 | the roots of up to three leaves: pairs in order and an odd last leaf with itself |
| `Merkle.ProofBelongs` | crates/zentra-core/src/merkle.rs:40-69 | the generated proof of a position is the path that its own sides lead down to, and it ends at the leaf there |
| `Merkle.RightLength` | crates/zentra-core/src/merkle.rs:72-84 | with an injective combine a proof of the tree's height, whatever its sides, verifies if and only if its leaf and siblings are those on the path its sides lead down |
| `Merkle.AcceptedIffBelongs` | crates/zentra-core/src/merkle.rs:72-84 | the same for proofs of every length, when no leaf is a value of the combine |
| `Merkle.AcceptedIffListed` | crates/zentra-core/src/merkle.rs:72-84 | over proofs of every length and side, a leaf has an accepted one if and only if it is in the list, the empty list standing for [0], when no leaf is a value of the combine |
| `Merkle.RootsAgreeIff` | crates/zentra-core/src/merkle.rs:9-34 | lists of equally many levels, empty ones included, have equal roots if and only if they have the same leaf in every place of the tree |
| `Merkle.RootsAgree` | crates/zentra-core/src/merkle.rs:9-34 | for any two lists whose leaves are no values of the combine, empty ones included: equal roots if and only if equally many levels and the same leaves |
| `Merkle.RootDeterminesList` | crates/zentra-core/src/merkle.rs:9-34 | lists of one length with equal roots are equal, which RootsAgreeIff gives |
| `Merkle.RepeatedLastKeepsRoot` | crates/zentra-core/src/merkle.rs:20-24 | repeating the last of an odd number of leaves keeps the root |
| `Merkle.ComputeMerkleRoot` | crates/zentra-core/src/merkle.rs:9-34 | the level loop computes the root |
| `Merkle.ComputeMerkleProof` | crates/zentra-core/src/merkle.rs:40-69 | the level loop computes the proof |
| `Merkle.VerifyMerkleProof` | crates/zentra-core/src/merkle.rs:72-84 | accepts exactly the proofs that fold to the root |
| `Merkle.BuildMerkleTree` | crates/zentra-runtime/src/state.rs:168-197 | the state tree's builder returns the same root on every list |
| `Mempool.NoSharedInput` | crates/zentra-core/src/mempool.rs:58-68 | no two stored transactions spend the same outpoint |
| `Mempool.IndexesAreDetermined` | crates/zentra-core/src/mempool.rs:9-20 | the stored transactions fix the priority index and the spent map |
| `Mempool.BestAreTaken` | crates/zentra-core/src/mempool.rs:116-123 | block candidates are stored, in falling fee rate and by hash among equals, and none left out pays more |
| `Mempool.Pool.AddTransaction` | crates/zentra-core/src/mempool.rs:43-97 | stores exactly unknown transactions with no input of a stored one while there is room, and keeps all indexes consistent |
| `Mempool.Pool.HasConflict` | crates/zentra-core/src/mempool.rs:58-68 | its conflict check: some input is an input of a stored transaction, coinbases apart |
| `Mempool.Pool.RemoveTransaction` | crates/zentra-core/src/mempool.rs:100-113 | removes the one transaction from all three indexes |
| `Mempool.Pool.GetTransactionsForBlock` | crates/zentra-core/src/mempool.rs:116-123 | as many candidates as asked for or stored |
| `Mempool.Pool.RemoveConfirmed` | crates/zentra-core/src/mempool.rs:141-145 | removes exactly the listed transactions |
| `Mempool.Pool.EvictOlderThan` | crates/zentra-core/src/mempool.rs:152-168 | removes exactly the stale transactions, in any order, and counts them |
| `Mempool.Pool.Clear` | crates/zentra-core/src/mempool.rs:171-175 | empties all three indexes |
| `CoinSelection.LargestAreWorthMost` | crates/zentra-wallet/src/signer.rs:181-198 | any choice of coins is worth at most as many of the largest |
| `CoinSelection.GreedyIsMinimal` | crates/zentra-wallet/src/signer.rs:181-198 | no covering choice uses fewer coins than the greedy one |
| `CoinSelection.Select` | crates/zentra-wallet/src/signer.rs:185-198 | the loop takes coins until they cover the sum or leave the word |
| `CoinSelection.BuildTransfer` | crates/zentra-wallet/src/signer.rs:170-241 | succeeds if and only if amount plus fee fits a word, the coins cover it and the coins taken fit a word together; input i is the i-th largest coin, the first output pays the recipient and a second one the change; inputs equal outputs plus fee; fewest coins |
| `Sorting.SortMeaning` | crates/zentra-wallet/src/signer.rs:181-183 | sorting by a key permutes and orders |
| `Sorting.SortIsStable` | crates/zentra-wallet/src/signer.rs:181-183 | elements of the same key keep their order |

## Left out

- RocksDB, serialisation, TCP frames, RPC, the web server, the faucet, threads, affinity and atomics: I/O or libraries; the store is a map and every method is sequential.
- Blake2b, SHA-256, Ed25519, Argon2, AES, BIP-39 and Bech32m: external; their answers are fields or parameters.
- The GHOSTDAG k-cluster theorem: the anticone test is a stated approximation over one level of stored sets, so only what the loop keeps is proved.
- A cap on merge-coinbase value: outputs are credited as given, so `Supply` keeps that value as a separate term.
- "The ledger is the replay of the selected tip" over all runs of `connect_block`: the block enters the DAG before the reorganisation that may reject it, so the claim is made per call of `Reorganize`, and by `Supply.FollowTips` up to the first call that fails.
- `connect_block`, `accept_external_block`, `try_connect_orphans` and header checks other than difficulty: glue around the modelled operations.
- Distinctness of signers in `validate_ingest`: the code counts entries only; `identify_abort` is a parameter.
- Floating point: displayed difficulty, hashrates, and the mining pool's shares and payouts.
- Gas meter, quarantine, governance, the consensus crate's own validator, Wasm host functions, the encrypted mempool and amount helpers: they would only add easy members.
- The desktop wallet and the command line: user interface.
- Scripts, burn types, transaction versions and payloads: no modelled operation looks at them.
- Overflow of blue scores and of header counters beyond 64 bits: scores are unbounded in `Ghostdag`, `Dag` and `Sync`.
- The vectors of blocks to disconnect and to connect in `reorganize` are represented by a chain and how far it is above the fork; the order of the calls is the code's.
- Retarget.DifficultyEngine.NextDifficulty: asks for at most 4096 recorded entries, because the code's timespan product is 64 bits wide; its windows hold at most 13.
- Conservation.BlockConservesValue: the exact sums are necessary only for new names; a block that overwrites live entries loses their value and may stay within its subsidy without them.
- Reorg.ZentraNode.Reorganize: asks that the ledger comes out right at the fork, and on failure where the way back begins; `Chain.OffIff` shows that this is the exact condition for each, so without it the ledger is no replay of the blocks left.
- Vault.OnlyApprovedLeavePending: asks that this one request is submitted as pending; the code takes a submitted status as it is.
- Supply.FollowTips: each change of tip is to keep its own fork, and a failed last one the way back; the block store is fixed during a run, blocks that arrive later are taken to be in it from the start.
- Amm.LiquidityPool.AddLiquidity: an abort is a result value, not a poisoned lock.
