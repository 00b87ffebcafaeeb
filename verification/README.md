# Primecoin core, verified

A Dafny model of the parts of the Primecoin node where state, arithmetic or concurrency make
correctness span several functions, with proofs about it. The model follows the C++ code branch
by branch: objects the code updates in place are classes, loops are loops with invariants, and
each such method is proved against a specification function whose own properties are proved
separately.

| component | modules |
|---|---|
| shared definitions | Basics |
| coin database, reorganisation, money supply | Coins, Blocks, Validation, Supply, Views, Connecting, Chain, Links, ChainState |
| storage form of coins and undo data | Amounts, VarInt, CoinsCodec, UndoCodec |
| targets, mint, work, median time | Target, MedianTime |
| prime proof of work | Primes, Sieve, PrimeChain, ProofOfWork |
| Merkle trees and partial Merkle trees | Merkle, PartialMerkle, PartialMerkleWire |
| parallel script checking | CheckQueue |
| block assembly | CreateBlock, BlockTemplate |
| address manager | AddrTables, AddrMan, AddrCheck, AddrStore |
| message framing | Framing, Sending |

`dafny verify dfyconfig.toml` checks the whole project.

## Main results

* **Coins depend only on the tip.** After any sequence of arriving blocks, with reorganisations
  that succeed or fail at any step, the coin view equals replaying every block from genesis to
  the tip, up to records without unspent outputs and to negative versions, which storage cuts;
  a failed `SetBestChain` changes nothing visible; undisturbed by disk and clock it succeeds
  exactly if the chain to its target connects; stored undo data stays the right one when a block is connected again; `pnext` marks
  exactly the main chain (`ChainState.NodeState.SetBestChain`, `ChainState.Run`,
  `ChainState.NodeSummary`, `ChainState.SameTipSameCoins`).
* **Disconnecting undoes connecting**, with undo data that went through the undo file and coins
  that may have been through the database, and reports no inconsistency
  (`Blocks.DisconnectUndoesConnect`, `UndoCodec.BlockUndoRoundTrip`). Versions come back
  exactly if no transaction whose last output the block spends has a negative one
  (`Blocks.VersionsComeBackIff`). The coins come back exactly if no transaction took, in its
  turn, the place of coins still around, which is what the overwrite rule ensures
  (`Blocks.CoinsComeBackIff`, `Blocks.NoOverwriteIsFresh`).
* **Money is conserved.** The recorded supply is the sum of all unspent outputs, and a block
  raises it by at most the mint of its target (`Supply.ConnectedBlockMints`,
  `Chain.SupplyWithinMint`).
* **The parallel check queue is right in every interleaving.** `Wait` returns the conjunction of
  the checks added since the last one, the counters are exact whenever the lock is released,
  the assertions of a new controller hold from one `Wait` until checks are added again, and a
  waiting master always has something that moves it on (`CheckQueue`).
* **The sieve is exact.** A multiplier is marked if and only if a woven prime divides a member of
  its chain, so no chain of large primes is thrown away (`Sieve`). Chain lengths count exactly
  the leading members that pass (`PrimeChain`).
* **Partial Merkle trees** lose nothing on the way through the wire form, and with an injective
  pair hash and the true transaction count prove nothing false (`PartialMerkleWire`).
* **The address manager** keeps all its tables consistent under every random choice, and saving
  and loading renames its entries and forgets nothing else but the last attempt
  (`AddrMan`, `AddrStore`).
* **A block template connects**: the block that `CreateNewBlock` assembles from a closed pool
  passes `ConnectBlock`, given a small valid coinbase with a new id and the checks on the header
  (`BlockTemplate.TemplateConnects`). Every eligible transaction it leaves behind misses a parent
  or was refused, for a stated reason, on top of some of those taken
  (`BlockTemplate.CreateNewBlock`).
* **Messages arrive** complete, in order and unchanged, however sending and receiving cut the
  byte stream (`Sending.Sender.EndToEnd`, `Sending.Deliver`).

## Where the code does less than it seems to

* Retargeting never makes fast blocks easier exactly while the denominator is positive
  (`Target.FasterNeverEasierIff`; only with interval and spacing both 1 does a whole target
  never tell). For very negative spacings it turns negative and the target falls as far as it
  can: `Target.VeryFastBlocksLowerTheTarget` gives numbers.
* Exact spacing keeps the target only for fractions in (0, 2^24 - 2^16], and at the minimum
  target itself (`Target.ExactSpacingKeepsTarget`, an equivalence).
* No higher target counts for less work than a given one exactly if that has the minimum length,
  or a fraction too small to count (`Target.WorkMonotoneIff`).
* The stored form of a coin record is faithful exactly for a version and height that are not
  negative: `WriteVarInt` cuts a negative number of a signed type to its low seven bits
  (`CoinsCodec.FaithfulIff`). Undo data loses a negative version in the same way
  (`UndoCodec.UndoFaithfulIff`); `DisconnectBlock` stays clean only because it forgives it.
* Undo data tells a spent-last-output apart by a height other than zero
  (`Coins.CleanRestoreNeedsHeight`, an equivalence).
* A chain test ends in the fractional error, which leaves the length without a fraction, exactly
  if the first number it tests is a power of two (`PrimeChain.ChainErrorIff`); a certificate can
  reach it (`ProofOfWork.ErrorWithinRange`).
* `SelectTried` returns the position from which the least recently successful inspected entry
  was drawn, where it stood just before its exchange. The exchange has put another entry there
  unless the entry was drawn from its own place; so the entry given up is the one chosen
  exactly then, while the comment in the source promises it always
  (`AddrMan.AddrMan.SelectTried`).
* The sender has no size limit, the receiver has: messages arrive exactly if each is within it,
  and a header that announces more ends the connection (`Sending.DeliveredIff`,
  `Sending.OversizeFails`).
* The transaction count of a partial Merkle tree is taken from the peer. With count 1 the root of
  any block is accepted as the id of a transaction in it
  (`PartialMerkleWire.RootPassesForCountOne`).
* Overwritten coins are lost without a report (`Blocks.OverwriteLosesCoins`).
* The time-stamp part of `Check_` survives `Good` exactly for positive times and `Attempt`
  exactly for times that are not negative (`AddrMan.AddrMan.Good`, `AddrMan.AddrMan.Attempt`).

## Model

| member | source | states |
|---|---|---|
| Coins.Cleanup | src/main.h:917-922 | drops the spent outputs at the end of a record: the longest prefix that does not end in a spent output |
| Coins.Spend | src/main.h:1054-1068 | fails exactly for an index out of range or a spent output; otherwise blanks the output, and the undo data carries height, coinbase flag and version exactly when the record became empty |
| Coins.SpendRemovesOne | src/main.h:1054-1068 | spending makes exactly one output unavailable and leaves index and content of every other one |
| Coins.RestoreUndoesSpend | src/main.cpp:1469-1493 | restoring with the stored undo data of a spend gives the record back with its length, outputs, height and coinbase flag, and finds nothing wrong; its version is that of the record found, or the stored one if the spend took the last output, which is the old one exactly if not negative |
| Coins.CleanRestoreNeedsHeight | src/main.cpp:1469-1493 | a restore from stored undo data reports clean if and only if the record has a height other than zero or was not emptied by the spend |
| Blocks.OthersStaySpendable | src/main.cpp:1286-1321 | spending the inputs of a transaction leaves every other output spendable with its value |
| Blocks.InputInTurn | src/main.cpp:1286-1300 | with distinct inputs each one is still unspent when its turn comes, so the assertion on Spend in UpdateCoins holds |
| Blocks.RestoreUndoesSpends | src/main.cpp:1464-1494 | restoring the inputs of a transaction in reverse order from stored undo data is clean and gives the database before it, up to pruned records and versions cut in storage |
| Blocks.UndoTransaction | src/main.cpp:1441-1495 | undoing one transaction, outputs and inputs, is clean and gives the database before it; a record whose negative version was cut in storage still matches the outputs |
| Blocks.ConnectInvariant | src/main.cpp:1602-1647 | along a block the database stays tidy, and an id that is not live stays so until its transaction |
| Blocks.DisconnectUndoesConnect | src/main.cpp:1421-1506 | disconnecting a connected block with undo data read back from the undo file, from coins that may have been through the database, is clean and gives the database before it, up to pruned records and cut versions, if no transaction overwrites coins in its turn; for in-block spends and last-output spends too |
| Blocks.DisconnectedRecord | src/main.cpp:1421-1506 | record by record, disconnecting leaves the database before the block, except that a transaction whose last output the block spends has its stored version |
| Blocks.VersionsComeBackIff | src/main.cpp:1452-1457 | all versions come back if and only if no transaction whose last output the block spends has a negative version |
| Blocks.NoOverwriteIsFresh | src/main.cpp:1560-1580 | a block that passes the overwrite rule before its first transaction overwrites nothing in any turn |
| Blocks.CoinsComeBackIff | src/main.cpp:1421-1506 | for every block: disconnecting gives the coins back if and only if no transaction overwrote coins in its turn, and is clean then |
| Blocks.OverwrittenIsLost | src/main.cpp:1421-1506 | coins overwritten in a turn are not there after disconnecting, whatever earlier inputs are restored |
| Blocks.OverwriteLosesCoins | src/main.cpp:1559-1580 | a block of one coinbase that takes a live id disconnects cleanly all the same, and loses the coins exactly then |
| Blocks.ConnectCongruent | src/main.cpp:1602-1647 | from coins that differ in pruned records and cut versions only, connecting leads to coins that differ so, and to undo data that reads back the same |
| Validation.CheckTransaction | src/main.cpp:555-601 | accepts exactly transactions with inputs, outputs, size, amounts and totals in range, distinct inputs, and null inputs only in a coinbase with a script of 2 to 100 bytes |
| Validation.MinFee | src/main.cpp:603-646 | the minimum fee lies between one cent and the money limit |
| Validation.ConnectsSpendable | src/main.cpp:1540-1666 | a block that connects is well formed and every input it spends is there when it is spent |
| Validation.ConnectsCongruent | src/main.cpp:1540-1666 | whether a block connects does not depend on pruned records or on versions cut in storage |
| Supply.SpendTotal | src/main.cpp:1286-1300 | spending inputs lowers the total of unspent outputs by the value of the inputs |
| Supply.ConnectTotal | src/main.cpp:1602-1647 | after any prefix of a block the total is the old one plus outputs minus inputs |
| Supply.FeesAreTheDifference | src/main.cpp:1602-1647 | the fees summed over a block are inputs minus outputs plus the coinbase |
| Supply.ConnectedBlockMints | src/main.cpp:1602-1663 | a connected block changes the total of unspent outputs by exactly the recorded supply change, which is at most the mint of its target |
| Supply.FadedTotal | src/main.cpp:1649-1656 | pruned records add nothing to the total, and cut versions change nothing |
| Views.CoinsView.Database | src/txdb.cpp:26-51 | an empty database view |
| Views.CoinsView.Cache | src/main.cpp:193-193 | a cache starts with the contents and best block of the view below |
| Views.CoinsView.GetCoins | src/main.cpp:195-217 | finds exactly the records of the view through any number of layers, changing no view's contents |
| Views.CoinsView.HaveCoins | src/main.cpp:230-232 | true exactly for ids of the view |
| Views.CoinsView.SetCoins | src/main.cpp:225-228 | changes one record of this layer and nothing below; the database erases a pruned one and stores others in their stored form |
| Views.CoinsView.GetBestBlock | src/main.cpp:234-238 | the best block of the nearest layer that has one |
| Views.CoinsView.SetBestBlock | src/main.cpp:240-243 | changes the best block of this layer only |
| Views.CoinsView.BatchWrite | src/main.cpp:245-250 | a cache overlays the given records and best block; the database erases pruned ones and keeps the others in their stored form, so what it shows is the same up to pruned records and cut versions |
| Views.CoinsView.Flush | src/main.cpp:252-257 | the view below gets the contents and best block of this one, and this one looks as before, up to the pruned records and negative versions the database loses |
| Views.FadedInStorage | src/txdb.cpp:15-20 | writing a batch to the database keeps every unspent record but for a negative version, and keeps the database tidy |
| Connecting.UpdateCoins | src/main.cpp:1286-1300 | the view after spending the inputs and adding the outputs, with the undo data of each input |
| Connecting.HasInputs | src/main.cpp:1302-1321 | true exactly if every input refers to an unspent output |
| Connecting.GetValueIn | src/main.cpp:1259-1269 | the sum of the values of the inputs |
| Connecting.GetP2SHSigOpCount | src/main.cpp:1271-1284 | the sum of the signature operations of the spent scripts |
| Connecting.CheckInputs | src/main.cpp:1335-1382 | accepts exactly if inputs exist, are mature, in the money range, and pay the minimum fee |
| Connecting.CheckScripts | src/main.cpp:1391-1416 | accepts exactly if every input's script passes |
| Connecting.ConnectOne | src/main.cpp:1602-1647 | one transaction: accepted exactly if its amounts and signature operations pass, with the running totals carried on |
| Connecting.ConnectTransactions | src/main.cpp:1595-1666 | accepts exactly the blocks all of whose transactions pass and whose coinbase is within its limit, with coins, undo data and totals |
| Connecting.CheckBlock | src/main.cpp:2039-2112 | accepts exactly blocks with one leading coinbase, valid transactions and distinct ids |
| Connecting.CheckNoOverwrite | src/main.cpp:1574-1580 | true exactly if no id of the block is live |
| Connecting.ConnectChecked | src/main.cpp:1571-1666 | accepts exactly the blocks that connect, and then gives coins, undo data and totals |
| Connecting.RestoreInputs | src/main.cpp:1464-1494 | puts back the inputs of one transaction, last first, and says whether all was as expected |
| Connecting.RemoveOutputs | src/main.cpp:1443-1462 | blanks the record of a transaction and says whether it had the expected outputs |
| Connecting.DisconnectTransactions | src/main.cpp:1437-1506 | undoes the transactions of a block, last first, failing exactly when the undo data does not fit |
| Chain.WorkIncreases | src/main.cpp:1910-1910 | chain work grows by at least 256 from parent to child |
| Chain.ReplayTidy | src/main.cpp:1540-1666 | replaying connecting blocks from genesis gives a tidy database |
| Chain.SupplyWithinMint | src/main.cpp:1649-1663 | the coins at any connecting block are worth at most the sum of the mints up to it |
| Chain.ConnectAgrees | src/main.cpp:1540-1666 | on coins that show the replay of the parent, ConnectBlock decides as the replay does and gives coins that show its own replay, the same undo file contents and the same supply change |
| Chain.DisconnectAgrees | src/main.cpp:1421-1506 | from coins that show the replay of a block, disconnecting with the undo file is clean and gives coins that show the replay of its parent |
| Links.LinksMarkMainChain | src/main.cpp:1816-1824 | a block has a pnext link or is the tip if and only if it is on the main chain, and the link leads to its child there |
| Links.FindFork | src/main.cpp:1716-1729 | the fork is on both chains, and the chains differ at every height above it |
| Links.Plan | src/main.cpp:1716-1740 | the blocks to disconnect and to connect are exactly those above the fork, in order |
| Links.Relink | src/main.cpp:1816-1824 | cutting the old branch and joining the new one gives exactly the links of the new main chain |
| ChainState.StoreConnected | src/main.cpp:1649-1694 | writing undo data and supply of a block keeps all stored data right, and a block connected again has the same undo data in the undo file already |
| ChainState.StoredUndoIsClean | src/main.cpp:1421-1506 | the undo data read back for any known block disconnects it cleanly from the coins at it |
| ChainState.NodeState.ConnectBlock | src/main.cpp:1540-1708 | on a view at the parent: connects to the coins of the block and records undo data and supply, or names the block invalid when it is too early or its chain does not connect; an error only if writing failed |
| ChainState.NodeState.DisconnectBlock | src/main.cpp:1421-1506 | on a view at a known block: succeeds exactly if the undo data can be read, and then gives the coins of its parent; nothing inconsistent is ever found |
| ChainState.NodeState.Prepare | src/main.cpp:1712-1787 | plans and performs the reorganisation on a cache; nothing below changes; an error only if the disk failed on a block of the plan |
| ChainState.NodeState.Reorganise | src/main.cpp:1747-1787 | disconnects to the fork and connects to the target, or names an invalid block of the new branch; an error only if a block to be left cannot be read or one to be entered cannot be read or stored |
| ChainState.NodeState.Commit | src/main.cpp:1789-1792 | flushing the cache leaves the coin view at the target |
| ChainState.NodeState.Adopt | src/main.cpp:1789-1853 | flush and relink: the node is consistent with the target as its tip |
| ChainState.NodeState.SetBestChain | src/main.cpp:1710-1853 | on success the tip is the target; otherwise tip, links and coins are as before; in every case the coins show the replay of the tip up to cut versions, stored undo data is kept, and a block reported invalid is on the new branch only; an error only if the disk failed on a block to be left or entered; without that and without an early block, success if and only if the chain to the target connects |
| ChainState.AncestorConnects | src/main.cpp:1768-1780 | a chain connects only if the chain to each of its blocks does |
| ChainState.NodeState.ConnectBestBlock | src/main.cpp:1185-1235 | terminates; on success no candidate has more work than the tip, and a tip no candidate beats is kept; otherwise a block is named that is too early or does not connect, or the disk failed |
| ChainState.NodeState.CheckAncestry | src/main.cpp:1200-1232 | walks to the main chain: finds a failed ancestor, or the blocks to attach, all with more work than the tip |
| ChainState.NodeState.MarkFailed | src/main.cpp:1204-1214 | a failed ancestor takes the candidate, and all between, off the candidates |
| ChainState.NodeState.InvalidBlockFound | src/main.cpp:1174-1183 | flags a block off the main chain and takes it off the candidates |
| ChainState.NodeState.AddToBlockIndex | src/main.cpp:1891-1941 | a new block keeps the node consistent, and on success leaves a tip of maximal work; otherwise a block is named that is too early or does not connect, or the disk failed |
| ChainState.BestCandidateExists | src/main.h:1845-1856 | among finitely many candidates the order by work and then identity has a greatest one |
| ChainState.GrowKeepsChain | src/main.cpp:1891-1941 | adding blocks changes neither path, coins nor validity of any block already there |
| ChainState.NodeSummary | src/main.cpp:1710-1853 | a consistent node's coins are the replay of its tip's chain, which connects, to the letter where the version is not negative; its recorded supply is their total and at most the mints; its links mark exactly the main chain |
| ChainState.SameTipSameCoins | src/main.cpp:1710-1853 | two nodes with the same tip have the same coins, supply and links, whatever came before; only a negative version may be cut at one of them |
| ChainState.Run | src/main.cpp:1891-1941 | any sequence of arriving blocks keeps the node consistent |
| Amounts.DecompressCompress | src/main.cpp:4779-4822 | decompressing undoes compressing, for every amount |
| Amounts.CompressDecompress | src/main.cpp:4779-4822 | compressing undoes decompressing, for every code: compression is a bijection |
| Amounts.NoWrap | src/main.cpp:4779-4796 | codes of amounts up to the money limit fit 64 bits |
| Amounts.CompressAmount | src/main.cpp:4779-4796 | computes the code modulo 2^64, hence the code itself in the money range |
| Amounts.DecompressAmount | src/main.cpp:4798-4822 | computes the amount of a code modulo 2^64, hence the amount itself where it fits |
| VarInt.RoundTrip | src/serialize.h:272-302 | reading back a written natural number gives it and takes exactly its bytes |
| VarInt.DecodedBytesAreCanonical | src/serialize.h:237-302 | the bytes a number is read from are the ones it is written with: one encoding per number |
| VarInt.NegativeIsLost | src/serialize.h:272-287 | a negative number comes back as its low seven bits |
| VarInt.RoundTripKept | src/serialize.h:272-302 | what any number, negative ones included, comes back as, taking exactly its bytes |
| VarInt.WriteVarInt | src/serialize.h:272-287 | writes the encoding, most significant digit first |
| VarInt.ReadVarInt | src/serialize.h:289-302 | reads the number at the front of a stream, or fails at its end |
| CoinsCodec.OutRoundTrip | src/main.h:693-716 | an output comes back with its amount and script, taking exactly its bytes |
| CoinsCodec.MaskRoundTrip | src/main.h:1002-1041 | reading mask bytes until the announced number of nonzero ones stops at the right byte and gives the availability of every output |
| CoinsCodec.MaskSizeEnds | src/main.h:945-961 | the mask ends with a byte in use, and no later output is available |
| CoinsCodec.CalcMaskSize | src/main.h:945-961 | the number of mask bytes up to the last nonzero one, and how many are nonzero |
| CoinsCodec.CodeWordParts | src/main.h:994-1030 | the code word gives back coinbase flag, availability of the first two outputs and the number of nonzero mask bytes |
| CoinsCodec.OutsRoundTrip | src/main.h:1010-1047 | the unspent outputs come back at their positions |
| CoinsCodec.RecordRoundTrip | src/main.h:990-1051 | decoding an encoded record gives its cleaned-up form and takes exactly the bytes written |
| CoinsCodec.FaithfulIff | src/main.h:990-1051 | and it does so with version and height unchanged if and only if these are not negative |
| CoinsCodec.StoredRecordIsReadBack | src/main.h:990-1051 | of a tidy record with an unspent output the database gives back everything but a negative version |
| CoinsCodec.Serialize | src/main.h:990-1017 | writes the encoding of a record |
| CoinsCodec.Unserialize | src/main.h:1019-1051 | reads what the decoding function gives, failing where the stream ends early |
| UndoCodec.UndoRoundTrip | src/main.h:735-759 | undo data of an input is read back with a negative version cut and no version where there is no height, taking exactly its bytes |
| UndoCodec.UndoFaithfulIff | src/main.h:735-759 | and it is read back unchanged if and only if its version is not negative, and zero without a height |
| UndoCodec.CompactSizeIff | src/serialize.h:172-235 | the length of a vector is read back if and only if it is within the limit for streams, in each of the four widths |
| UndoCodec.VectorReadsAs | src/serialize.h:508-558 | a vector is read back element by element, taking exactly its bytes |
| UndoCodec.BlockUndoRoundTrip | src/main.h:762-782 | the undo data of a block is read back in its stored form |
| UndoCodec.ConnectedUndoWritable | src/main.cpp:1595-1681 | the undo data of every block that connects has a written form |
| Target.DifficultyRange | src/prime.cpp:192-195 | fractional difficulty lies in its range, is least exactly for fraction zero, and exceeds the threshold exactly above the largest fraction |
| Target.GetThenSetIsIdentity | src/prime.cpp:187-208 | setting the fractional difficulty just read changes nothing |
| Target.SettleOutcome | src/prime.cpp:261-276 | the three outcomes of settling a difficulty: length up with fraction zero, length down with the largest fraction, or a new fraction |
| Target.RetargetIsValid | src/prime.cpp:244-276 | retargeting succeeds for every denominator but zero, moves the length by at most one, keeps the minimum length and the largest fraction |
| Target.FasterNeverEasier | src/prime.cpp:244-276 | for positive denominators faster blocks never get a lower target |
| Target.NegativeDenominatorIsEasiest | src/prime.cpp:244-276 | a negative denominator gives a target no higher than any spacing gives |
| Target.SlowerIsHarder | src/prime.cpp:244-276 | for a negative denominator a slower spacing with a strictly higher target: the one whose denominator is 1 or 2 |
| Target.FasterNeverEasierIff | src/prime.cpp:244-276 | no slower spacing gets a higher target if and only if the denominator is positive, or the target is whole and interval and spacing are both 1 |
| Target.VeryFastBlocksLowerTheTarget | src/prime.cpp:244-276 | two spacings on either side of the sign change, the faster one with the lower target |
| Target.ExactSpacingKeepsTarget | src/prime.cpp:244-276 | exact spacing keeps the target if and only if its fraction is in (0, 2^24 - 2^16] or it is the minimum |
| Target.MintBound | src/prime.cpp:224-241 | the mint is a whole number of cents, at most 999 coins over the square of the target; the over-limit exit is not reached |
| Target.MintAntitone | src/prime.cpp:224-241 | a harder target never mints more |
| Target.GetBlockWork | src/main.cpp:2197-2217 | the work of a target, by its length and fraction |
| Target.WorkBetweenPowers | src/main.cpp:2197-2217 | work lies between consecutive powers of the transition ratio times 256 |
| Target.WorkMonotone | src/main.cpp:2197-2217 | work is monotone in the target, across length boundaries |
| Target.WorkMonotoneIff | src/main.cpp:2197-2217 | no higher target is worth less than a given one if and only if that has the minimum length or a fraction of at most 67386 |
| MedianTime.GetMedianTimePast | src/main.h:1796-1810 | the middle of the sorted last 99 times, or of all if there are fewer |
| MedianTime.MedianIsMiddle | src/main.h:1796-1810 | the median is a time of the window, and is at least m exactly if at most half of the window is below m |
| MedianTime.LaterBlockKeepsMedian | src/main.cpp:2136-2137 | a block later than its parent's median does not lower the median, for growing and for full windows |
| MedianTime.MedianNeverDecreases | src/main.cpp:2136-2137 | along an accepted chain the median never decreases |
| MedianTime.LaterThanEveryMedian | src/main.cpp:2136-2137 | on an accepted chain every block is later than the median at each of its ancestors |
| Primes.GeneratePrimeTable | src/prime.cpp:15-31 | the table holds exactly the primes below the limit, ascending |
| Primes.ModInverse | src/prime.cpp:663-670 | an inverse in [0, p), or nothing exactly if there is none |
| Primes.InverseInRange | src/prime.cpp:663-670 | modulo a prime that does not divide it every number has an inverse |
| Sieve.Solved | src/prime.cpp:676-678 | the solved multiplier: p divides a * m + delta exactly for m congruent to it |
| Sieve.NextInverse | src/prime.cpp:679-680 | multiplying by the inverse of two gives the inverse for the next pair of members |
| Sieve.HalfExists | src/prime.cpp:667-670 | two has an inverse modulo every prime but two |
| Sieve.MarkFrom | src/prime.cpp:683-691 | marks exactly the multipliers congruent to the solved one |
| Sieve.SieveOfEratosthenes.constructor | src/prime.h:117-128 | an empty sieve, exact for no primes |
| Sieve.SieveOfEratosthenes.WeaveStep | src/prime.cpp:674-692 | one step of the loop marks exactly the multipliers whose member at that step is divisible, in the right bitmaps |
| Sieve.SieveOfEratosthenes.Weave | src/prime.cpp:651-695 | succeeds exactly while primes below the sieve size remain, the prime two for an odd factor apart; keeps all three bitmaps exact for the primes woven so far; failing changes nothing |
| Sieve.SieveOfEratosthenes.GetCandidateCount | src/prime.h:131-142 | the number of multipliers with at least one unmarked chain |
| Sieve.SieveOfEratosthenes.GetNextCandidateMultiplier | src/prime.h:148-177 | the next multiplier that is not marked in all three bitmaps, with the type by priority BiTwin, first, second kind; resets at the end |
| Sieve.SieveOfEratosthenes.Scan | src/prime.cpp:616-628 | a scan hands out every unmarked positive multiplier once, in order |
| Sieve.SieveOfEratosthenes.NoPrimeChainIsMarked | src/prime.cpp:651-695 | a chain of the target length all of whose members are primes above the woven ones is never marked |
| PrimeChain.FractionOverflows | src/prime.cpp:101-103 | the fractional error is reached exactly for a zero remainder |
| PrimeChain.FermatErrorIff | src/prime.cpp:91-108 | the Fermat test ends in an error if and only if the number is a power of two |
| PrimeChain.DerivedRemainder | src/prime.cpp:137-138 | squaring the Euler remainder gives the Fermat remainder |
| PrimeChain.LifchitzRefinesFermat | src/prime.cpp:91-144 | for a number of the right residue: no error, the Euler-Lagrange-Lifchitz test passes only what the Fermat test passes, and what the Fermat test rejects both reject with the same length |
| PrimeChain.ProbableCunninghamChainTest | src/prime.cpp:305-332 | the length counts exactly the leading members that pass, with the fraction of the first failing one; true for length two and more |
| PrimeChain.NoErrorForEvenOrigin | src/prime.cpp:91-144 | for an even origin with a first member above one neither the residue nor the fractional error is reached |
| PrimeChain.ChainErrorIff | src/prime.cpp:305-332 | a chain test ends in an error if and only if its first number is a power of two |
| PrimeChain.LifchitzNeverLonger | src/prime.cpp:305-332 | for an even origin the Lifchitz-based length never exceeds the Fermat-only one, and equal lengths have equal fractions |
| PrimeChain.BiTwinCountIsLongest | src/prime.cpp:349-353 | the rule for BiTwin length gives the longest passing prefix of O - 1, O + 1, 2O - 1, 2O + 1, ... |
| PrimeChain.ProbablePrimeChainTest | src/prime.cpp:338-356 | all three lengths with their fractions, the BiTwin one formed from the eight length bits of the others, and whether one meets the target |
| PrimeChain.SameMembers | src/prime.cpp:628-628 | the chains of the sieve are the chains of the test over factor times multiplier |
| PrimeChain.MeetsTarget | src/prime.cpp:355-355 | a length meets a target exactly if its integer part is larger, or equal with a fraction at least as large |
| ProofOfWork.CheckPrimeProofOfWork | src/prime.cpp:385-477 | accepts exactly if target, header hash and origin are in range, the chain meets the target, both kinds of test give the same three lengths, and a multiplier that can be halved gives no longer chain when halved; reports the longest chain also where it rejects |
| ProofOfWork.ErrorWithinRange | src/prime.cpp:385-412 | header hash 2^255 + 1 with multiplier 1 is in range and its first chain test ends in the error |
| ProofOfWork.DoubleCheckComparesCounts | src/prime.cpp:431-446 | for an even origin the two kinds of test give equal lengths if and only if the member where the stricter one stops fails the Fermat test too |
| ProofOfWork.HalvedLength | src/prime.cpp:461-474 | with Fermat tests a halved origin has a chain longer by one if its new first member passes, and none otherwise |
| Merkle.ClosedWidth | src/main.h:1222-1224 | the closed formula gives the width of a level by repeated halving |
| Merkle.LevelStep | src/main.h:1401-1417 | each node of a level is the hash of its two children, the last one paired with itself if need be |
| Merkle.BuildMerkleTree | src/main.h:1401-1417 | the flat tree is the sequence of levels, and its end is the root |
| Merkle.GetMerkleBranch | src/main.h:1426-1440 | the siblings on the way from a leaf to the root |
| Merkle.CheckMerkleBranch | src/main.h:1442-1455 | folds a branch, and gives zero for index -1 |
| Merkle.BranchLeadsToRoot | src/main.h:1426-1455 | the branch of every leaf folds to the root |
| Merkle.BranchProvesTransaction | src/main.h:1442-1455 | with an injective pair hash, a branch of the right length that folds to the root proves the id at its index |
| PartialMerkle.ParentOfMatch | src/main.cpp:2378-2384 | true exactly if a leaf below the node matches |
| PartialMerkle.AnyInRange | src/main.cpp:2378-2384 | the leaves below a node are those of its index range |
| PartialMerkle.ExtractReadsBuild | src/main.cpp:2378-2424 | extracting what was built, at any place of the record, gives the node's hash and the matched ids and takes exactly what was written |
| PartialMerkle.RecordSizes | src/main.cpp:2378-2394 | a record never holds more hashes than leaves or than bits |
| PartialMerkle.ExtractSound | src/main.cpp:2396-2424 | with an injective pair hash, any record that yields the true hash yields exactly the ids at the flagged leaves |
| PartialMerkle.FlaggedInOrder | src/main.cpp:2396-2424 | flagged positions are within range and ascending |
| PartialMerkleWire.Pack | src/main.h:1250-1254 | bit p of the packed bytes is bit p of the record, and padding is zero |
| PartialMerkleWire.Unpack | src/main.h:1243-1249 | eight bits per byte, least significant first |
| PartialMerkleWire.PartialMerkleTree.FromBlock | src/main.cpp:2426-2438 | bits and hashes of the record for the whole block |
| PartialMerkleWire.PartialMerkleTree.TraverseAndBuild | src/main.cpp:2378-2394 | appends the record of a node |
| PartialMerkleWire.PartialMerkleTree.TraverseAndExtract | src/main.cpp:2396-2424 | reads the record of a node, flagging overruns |
| PartialMerkleWire.PartialMerkleTree.ExtractMatches | src/main.cpp:2442-2473 | the root and matches, or zero where a consistency test fails |
| PartialMerkleWire.RoundTrip | src/main.cpp:2442-2473 | packing, unpacking and extracting gives the root and exactly the masked ids, consuming all hashes and all bits up to padding |
| PartialMerkleWire.MatchesAreAuthentic | src/main.cpp:2442-2473 | with an injective pair hash and the true count, matches that come with the true root are the ids at the flagged leaves, in order |
| PartialMerkleWire.RootPassesForCountOne | src/main.cpp:2442-2473 | with count 1 the root of any block is accepted as a matched id |
| PartialMerkleWire.Transfer | src/main.cpp:2426-2473 | block to wire to matches: the root is the one of the flat tree, the matches are the masked ids |
| CheckQueue.TakeBatch | src/checkqueue.h:102-108 | takes checks off the end of the queue |
| CheckQueue.Execute | src/checkqueue.h:112-115 | the conjunction of the batch, or false if the start was not ok |
| CheckQueue.ProceedKeeps | src/checkqueue.h:82-110 | returning, waiting or taking a batch keeps the counters exact; a returning master has the conjunction of all checks added |
| CheckQueue.AddKeeps | src/checkqueue.h:136-147 | adding checks keeps the counters exact and wakes workers |
| CheckQueue.StepKeeps | src/checkqueue.h:61-147 | every step of every thread keeps the invariant |
| CheckQueue.RunsKeepInvariant | src/checkqueue.h:61-147 | in every interleaving nTodo is queued plus in flight, nIdle the sleepers, nTotal minus nIdle the threads with a batch |
| CheckQueue.WaitIsConjunction | src/checkqueue.h:131-133 | Wait returns true if and only if every check added since the last Wait is true |
| CheckQueue.ControllerMayStart | src/checkqueue.h:164-171 | from the start or the return of a Wait until checks are added, whatever the workers do: all threads in the pool are idle, nothing is to be done and the verdict is reset, as a new controller asserts |
| CheckQueue.MasterMakesProgress | src/checkqueue.h:61-118 | a master that has not returned always has a step that shortens what is left or lets it return |
| CheckQueue.StepsDoNoHarm | src/checkqueue.h:61-132 | no step of a worker or of the master, in any state, brings more work |
| CreateBlock.CollectOne | src/main.cpp:4251-4318 | a pool transaction is skipped, put on the heap, or waits exactly for its parents that are not in the database |
| CreateBlock.Release | src/main.cpp:4395-4410 | taking a transaction releases exactly the dependers that wait for nothing else, each once |
| CreateBlock.Try | src/main.cpp:4339-4387 | a transaction is taken if and only if no limit, low fee past the minimum size while sorted by fee, input or script speaks against it; when the sorting switches to fees |
| CreateBlock.Select | src/main.cpp:4320-4411 | terminates because heap plus waiting transactions shrink; takes each transaction at most once; keeps size, signature operations and fees exact and within limits; every transaction taken off the heap is in the block or was refused on top of some of those in it |
| CreateBlock.TurnedDownStays | src/main.cpp:4329-4387 | a refusal on top of some selected transactions stays one when more are selected |
| BlockTemplate.CreateNewBlock | src/main.cpp:4194-4438 | distinct eligible pool transactions, each valid on top of those before it, within the size and signature limits; the coinbase fee entry is minus the sum of the others; every eligible pool transaction is in the block, misses a parent that is neither in the database nor in the block, or was refused on top of some of those in the block |
| BlockTemplate.TemplateFits | src/main.cpp:4363-4378 | every transaction of a template is valid on top of those before it |
| BlockTemplate.DependenciesFirst | src/main.cpp:4363-4378 | an input refers to the database or to an earlier transaction of the block |
| BlockTemplate.NoDoubleSpend | src/main.cpp:4363-4378 | no output is spent twice in the block |
| BlockTemplate.WithCoinbase | src/main.cpp:4428-4434 | connecting the coinbase first only adds its record |
| BlockTemplate.TemplateConnects | src/main.cpp:4428-4434 | the block CreateNewBlock assembled connects, so the final ConnectBlock does not fail, given a small valid coinbase with a new id that pays the block value, and the checks on header and size |
| AddrTables.ReplaceKeepsTried | src/addrman.cpp:231-258 | replacing a tried entry keeps every tried entry once in its own bucket |
| AddrTables.EvictKeepsNew | src/addrman.cpp:234-254 | the evicted entry is in exactly one new bucket, which had room |
| AddrTables.DropKeepsRefs | src/addrman.cpp:162-170 | dropping an entry from a bucket keeps reference counts equal to the number of buckets |
| AddrMan.AddrMan.constructor | src/addrman.h:382-390 | an empty manager is consistent |
| AddrMan.AddrMan.Find | src/addrman.cpp:81-92 | finds the entry of an address if and only if there is one |
| AddrMan.AddrMan.Create | src/addrman.cpp:94-104 | a new entry at the end of vRandom under the next id |
| AddrMan.AddrMan.SwapRandom | src/addrman.cpp:106-124 | exchanges two positions and keeps vRandom and nRandomPos inverse |
| AddrMan.AddrMan.SelectTried | src/addrman.cpp:126-148 | the bucket after the drawn exchanges; the position returned is the one drawn for the least recently successful inspected entry, which stood there just before its exchange, and stands there afterwards if and only if it was drawn from its own place |
| AddrMan.AddrMan.ShrinkNew | src/addrman.cpp:150-202 | removes the first terrible entry in id order, or else the oldest of the inspected ones; deletes it exactly if this was its last bucket |
| AddrMan.AddrMan.MakeTried | src/addrman.cpp:204-260 | the entry leaves all new buckets for its tried bucket; a full bucket evicts exactly one entry to a new bucket, and otherwise none |
| AddrMan.AddrMan.FindBucket | src/addrman.cpp:289-301 | minus one exactly if no new bucket holds the entry |
| AddrMan.AddrMan.Good | src/addrman.cpp:262-311 | keeps consistency; a known entry ends up tried with its times set, so the exit for a missing bucket is not reached; time stamps stay in order exactly for positive times |
| AddrMan.AddrMan.Add | src/addrman.cpp:313-369 | keeps consistency; true exactly for a routable unknown address, which gets an entry in one new bucket; a known one gets its time and services updated, and another bucket only with news and room; at most one other entry loses a reference or is gone, and all others change nothing but their position |
| AddrMan.AddrMan.Refer | src/addrman.cpp:359-367 | puts an entry into its new bucket for the source unless it is there, raising its count exactly then |
| AddrMan.AddrMan.Attempt | src/addrman.cpp:371-388 | records the attempt of a known service; time stamps stay in order exactly for times not negative |
| AddrMan.AddrMan.Connected | src/addrman.cpp:510-528 | moves the time of a known service forward if it is 20 minutes old |
| AddrMan.AddrMan.GetAddr | src/addrman.cpp:494-508 | distinct known addresses, 23 percent of all and at most 2500, keeping consistency |
| AddrMan.Run | src/addrman.cpp:94-369 | every sequence of operations under every random choice keeps consistency |
| AddrCheck.CheckEntry | src/addrman.cpp:442-461 | the conditions on one entry |
| AddrCheck.EraseTried | src/addrman.cpp:466-474 | nothing is missing and nothing left if and only if the buckets list the set exactly |
| AddrCheck.EraseNew | src/addrman.cpp:476-485 | nothing is missing and nothing left if and only if every id is in as many buckets as it counts and no other id is in any |
| AddrCheck.Check | src/addrman.cpp:435-491 | for every state: zero exactly if the counters are right, every entry passes, the tried buckets list the tried ids once each and nothing else, and every id is in as many new buckets as it counts |
| AddrCheck.ValidIsAccepted | src/addrman.cpp:435-491 | every state the operations keep passes the debug check, exactly if its time stamps are in order |
| AddrStore.Save | src/addrman.h:272-317 | writes every entry once, new ones first, in id order, and every bucket as positions in that order |
| AddrStore.RoomForTried | src/addrman.h:341-360 | every saved tried entry finds room in its bucket |
| AddrStore.LoadTried | src/addrman.h:340-360 | no tried entry is lost |
| AddrStore.RoomForReference | src/addrman.h:361-377 | the limit of four buckets turns no saved reference away |
| AddrStore.Load | src/addrman.h:318-378 | loading a saved file gives a consistent manager isomorphic to the saved one |
| AddrStore.IsomorphicIsValid | src/addrman.h:248-380 | renaming entries keeps consistency |
| AddrStore.Reload | src/addrman.h:248-380 | saving and loading keeps everything but ids, positions, bucket order and the last attempt |
| Framing.WordRoundTrip | src/net.h:426-428 | a 32-bit word comes back from its four bytes |
| Framing.FeedConcat | src/net.cpp:635-661 | the receiver's state depends only on the concatenated bytes |
| Framing.Receiver.ReceiveMsgBytes | src/net.cpp:635-661 | absorbing a chunk equals absorbing its bytes one at a time, including where it fails |
| Framing.Receiver.ReadHeader | src/net.cpp:663-693 | copies into the header, and at its end fails exactly for an announced size above the limit |
| Framing.Receiver.ReadData | src/net.cpp:695-704 | copies into the payload up to the announced size |
| Sending.WholeStream | src/net.cpp:635-704 | a stream of frames within the size limit gives exactly their messages |
| Sending.Delivered | src/net.cpp:635-704 | any prefix of the stream gives a prefix of the messages, unchanged, and all bytes give all of them |
| Sending.OversizeFails | src/net.cpp:672-687 | a header that announces more than the limit ends the connection with exactly the messages before it delivered |
| Sending.DeliveredIff | src/net.cpp:635-704 | the whole stream delivers all messages if and only if each is within the size limit |
| Sending.FrameIsPatched | src/net.h:426-435 | patching size and checksum into the header gives the frame |
| Sending.Sender.SocketSendData | src/net.cpp:715-755 | whatever the socket takes, nSendSize and nSendOffset describe the queue exactly, and the bytes sent continue the stream |
| Sending.Sender.PushMessage | src/net.h:393-450 | queues the frame of a message and sends at once if the queue was empty |
| Sending.Sender.EndToEnd | src/net.cpp:635-755 | a receiver that got any part of the bytes sent holds the first messages sent, complete and unchanged |
| Sending.Deliver | src/net.cpp:635-704 | a receiver that is handed the bytes sent in chunks of any sizes accepts every chunk and holds the first messages sent, all of them at the end |

## Left out

- ECDSA, SHA-256, script evaluation and script compression: functions given as parameters; of the script codec only that it marks its own end is assumed.
- Floating point (`Select_`, `GetChance`, priorities, difficulty display): not modelled; `CreateNewBlock` allows any order of its heap, and which transactions pay a low fee or have a low priority is given.
- Clock, disk, random numbers, sockets: their results are arbitrary values; those of clock and disk in a reorganisation are given as parameters, one answer for each block and kind of access.
- AddrStore.Load: states nothing about files that saving cannot produce; the branch for a different number of new buckets is not modelled.
- PrimeChain.ProbableCunninghamChainTest: takes a failing member as given, since termination of the source loop is a number-theoretic question.
- CreateBlock.CollectOne: the pool is closed, that is every input refers to the database or the pool; the branch for a missing parent is not modelled.
- BlockTemplate.NoDoubleSpend: assumes that no transaction of the block is live in the database, as mempool acceptance ensures.
- ChainState.NodeState.AddToBlockIndex: the two block hashes exempt from the overwrite rule are taken to be absent.
- ChainState.NodeState.InvalidBlockFound: the case of a block on the main chain, where the source reorganises away from it, does not arise from SetBestChain and is excluded.
- Validation.MinFee: only the mode blocks are checked in; the modes for relaying and for sending, and prices that rise with the block size, are used by mempool and wallet only.
- Connecting.CheckBlock: size, time, proof of work, signature operations and Merkle root are one given condition on the block; `ProofOfWork`, `Merkle` and `MedianTime` treat three of them on their own.
- Wrap-around of 64-bit sums of amounts and of 256-bit chain work: integers are unbounded there; `Amounts` models the 64-bit word.
- A failure after `view.Flush()` in `SetBestChain`: the node aborts there, so nothing is stated.
- The checksum and header of an undo file record, and 32-bit wrap-around of heights in it.
- CCoins and CBlockIndex are values reached by hash instead of objects reached by pointer, so aliasing of records is not captured.
- Putting the transactions of disconnected blocks back into the memory pool, and removing connected ones.
- Mempool acceptance, orphan transactions, wallet, RPC, alerts, sync checkpoints, the bloom filter, `mruset`, `limitedmap` and block-file statistics.
- `CheckPrimeProofOfWorkV02Compatibility`, `CheckBlockHeaderIntegrity`, `EstimateWorkTransition` and the mining loop.
- ProofOfWork.CheckPrimeProofOfWork: takes as given that the chains over the origin and over half of it end.
- `fQuit` of the check queue, which no code sets.
