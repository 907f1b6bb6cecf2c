# QR encoder, asset state and amount printer: a Dafny model

This project models three parts of the repository and proves what they promise.

**The QR encoder** (`external/qrcodegen/QrCode.cpp`), an implementation of ISO/IEC 18004. The main results:

- `QrEncoder.Encode` succeeds exactly when some version in the requested range has room, uses the smallest such version
  and the highest level that fits, and its grid reads back, by a reader written independently of it, as exactly the
  contents the segments were made from. `QrEncoder.EncodeText` is the same for text, with the encoder's own tables: no
  single segment of any mode would have fitted a smaller version.
- No internal assertion of the encoder fails, leaving aside those on the width of the format and version bits. In particular `FreeCells.EnoughFree` counts the modules that the function
  patterns of each of the 40 versions leave free and finds room for all codewords.
- The bytes form a field in which 2 has order 255; every block is a multiple of the generator polynomial; two blocks of
  different data differ in more places than they have error correction codewords.
- The automatic choice of a mask leaves no trace, and the single pass of the penalty score computes a declarative score.

**Chain and asset state** (`src/blockchain_db/asset_db.cpp`, `src/blockchain_db/blockchain_db.cpp`, with the storage
primitives of `src/blockchain_db/lmdb/db_lmdb.cpp` and the registry of `src/cryptonote_basic/asset_types.cpp`). The main
results range over all runs of adding and popping blocks:

- The asset tables are always those of the blocks still on the chain (`ChainRuns.RunReplayed`); key images of surviving
  asset transactions are disjoint, their rings still resolve and they passed all checks (`ChainRuns.RunSound`).
- Removing a transaction undoes adding it exactly if every output is looked for in the list it was stored in
  (`Chains.RemoveTxIff`, and `Chains.PopAddedIff` for blocks). In runs of such blocks everything stored is that of the surviving blocks (`ChainRuns.RunRebuilt`).
- After an issuance is accepted and stored, the registry loads again exactly if the issuance is of the expected network
  and a collection it claims sorts before it (`Reloads.ReloadIff`). `Reloads.SameHeightFails` is an input where it does not.

**The amount printer** (`assetAmount` in `explorer/app.js`): what is printed reads back, for every natural number, and for
negative numbers exactly if they have no fraction.

## How it is modelled

- Exceptions and error returns are `Result` or `Option` values. `AssetDbs.Outcome` separates a rejected asset transaction
  from one that makes the storage throw. A thrown exception aborts the write transaction, which `NodeDbs` models by
  putting everything back.
- Hashes, signatures, ring proofs and the serialisation of issuances are function-valued parameters (`Issuing`, `Rules`,
  `Hashing`). Two of them are relied on: what is encoded decodes (`Registries.Faithful`), and output ids of one carrier
  differ when their indices do (`AssetTransactions.IndexInjective`). Each is a hypothesis of the lemmas that need it.
- The error correction code is proved over any field given by its operations (`Fields.Field`) and used at the encoder's
  field (`Gf256.GF`). Version tables and function patterns are parameters in the same way (`Versions.Capacity`,
  `QrCodes.Canvas`) and are given the encoder's values in `Versions.QR` and `QrEncoder.QR_CANVAS`.
- A `long` holds at least 2147483647, and that is the value used for `LONG_MAX`. Text is a sequence of characters 1 to 255,
  of at most `INT_MAX` characters, beyond which the source's counters overflow.
- Grids, bit buffers, tables and lists are fields or variables of sequence, map or set type that are reassigned; the
  history of runs and the product polynomial are arrays changed in place.
- Files: `Fields` to `ReedSolomon` are the code; `Bits` to `EncodeData` and `TextModes` the data stream; `Interleave` the blocks; `Grids`
  to `QrEncoder` the grid; `Hashes` to `NodeDbs` the chain; `AssetAmount` the printer.

## Model

| member | source | states |
|---|---|---|
| Bits.BitBuffer.AppendBits | external/qrcodegen/QrCode.cpp:855-860 | appends the value in big endian, or fails without change exactly if the length is not 0 to 31 or the value does not fit |
| Bits.ToNatBigEndian | external/qrcodegen/QrCode.cpp:855-860 | the appended bits read back as the value |
| Bits.PackBytes | external/qrcodegen/QrCode.cpp:310-313 | setting single bits of zeroed bytes packs the stream |
| Bits.UnpackPack | external/qrcodegen/QrCode.cpp:310-313 | packed bytes unpack to the same bits |
| Bits.UnpackAt | external/qrcodegen/QrCode.cpp:582-583 | bit i of the codewords is bit 7 - (i & 7) of byte i >> 3 |
| Gf256.Multiply | external/qrcodegen/QrCode.cpp:772-782 | the Russian peasant loop computes the field product; no bit is left above the eighth |
| Gf256.GfRingLaws | external/qrcodegen/QrCode.cpp:772-782 | the product is commutative, associative, distributes over exclusive or, and has 1 as unit |
| Gf256.TwiceOf | external/qrcodegen/QrCode.cpp:775-778 | multiplying by 2 doubles the number a byte stands for, with 0x1D added where a bit falls out; with the ring laws this settles every product |
| Gf256.GeneratorOrder | external/qrcodegen/QrCode.cpp:742-745 | 2 has multiplicative order exactly 255 |
| Gf256.GfIsField | external/qrcodegen/QrCode.cpp:742-745 | no zero divisors, and the first 255 powers of 2 are distinct and not zero |
| Fields.OrderMakesField | external/qrcodegen/QrCode.cpp:742-745 | an element of order 255 in a commutative ring of 256 elements makes it a field |
| ReedSolomon.MultiplyInPlace | external/qrcodegen/QrCode.cpp:747-752 | the inner loop replaces every coefficient by its product with the root plus the next coefficient |
| ReedSolomon.RoundAdvances | external/qrcodegen/QrCode.cpp:746-754 | one round turns the array of a partial product into the array of that product times (x - root) |
| ReedSolomon.ComputeDivisor | external/qrcodegen/QrCode.cpp:734-756 | fails exactly outside degrees 1 to 255; otherwise the result with a leading 1 is the product of (x - 2^i), i below the degree |
| Polynomials.GeneratorRoots | external/qrcodegen/QrCode.cpp:742-745 | the product polynomial vanishes exactly at 2^0 to 2^(d-1) |
| ReedSolomon.ShiftRegister | external/qrcodegen/QrCode.cpp:762-767 | one step shifts the register and adds the scaled divisor |
| ReedSolomon.ComputeRemainder | external/qrcodegen/QrCode.cpp:759-769 | the loop computes the remainder of any data; an empty divisor fails exactly if there is data |
| ReedSolomon.RemainderVanishes | external/qrcodegen/QrCode.cpp:759-769 | data followed by its remainder vanishes wherever the divisor does |
| ReedSolomon.BlockVanishes | external/qrcodegen/QrCode.cpp:734-769 | data of any length followed by its error correction codewords vanishes at 2^0 to 2^(d-1) |
| Distance.Vandermonde | external/qrcodegen/QrCode.cpp:734-769 | at most m weights on distinct nodes whose first m power sums vanish are all zero |
| Distance.MinimumDistance | external/qrcodegen/QrCode.cpp:734-769 | two different words of at most 255 symbols that vanish at d consecutive powers differ in more than d places |
| ReedSolomon.BlocksFarApart | external/qrcodegen/QrCode.cpp:734-769 | different data of one length give blocks that differ in more than d places |
| ReedSolomon.EccIsUnique | external/qrcodegen/QrCode.cpp:759-769 | the error correction codewords are the only d symbols that complete the data to a vanishing block |
| ReedSolomon.QrBlocks | external/qrcodegen/QrCode.cpp:734-782 | both promises at the encoder's field, for blocks of at most 255 codewords |
| Segments.MakeBytes | external/qrcodegen/QrCode.cpp:67-74 | fails exactly above INT_MAX bytes; otherwise the segment of the bytes |
| Segments.MakeNumeric | external/qrcodegen/QrCode.cpp:77-97 | fails exactly on a non-digit; otherwise the segment of the digits in groups of three |
| Segments.MakeAlphanumeric | external/qrcodegen/QrCode.cpp:100-120 | fails exactly on a character outside the 45; otherwise the segment of the characters in pairs |
| Segments.EncodeGroups | external/qrcodegen/QrCode.cpp:82-95 | the accumulating loop of both factories writes full groups and a shorter last one, for any alphabet and group size |
| Segments.ReadSymbolBits | external/qrcodegen/QrCode.cpp:77-120 | groups of digits or characters read back, whatever follows them |
| Segments.MakeEci | external/qrcodegen/QrCode.cpp:141-156 | fails exactly outside 0 to 999999; otherwise the designator in 8, 16 or 24 bits |
| SegmentStream.ReadDesignator | external/qrcodegen/QrCode.cpp:141-156 | each form of a designator reads back as its value |
| Segments.IsNumeric | external/qrcodegen/QrCode.cpp:203-210 | all characters are digits |
| Segments.IsAlphanumeric | external/qrcodegen/QrCode.cpp:194-200 | all characters are among the 45 |
| Segments.MakeSegments | external/qrcodegen/QrCode.cpp:123-138 | no segment for empty text, otherwise one of the first of digits, the 45 characters and bytes that can hold it; `TextModes.ShortestMode` says that this is the shortest |
| Segments.TextOfContents | external/qrcodegen/QrCode.cpp:123-138 | the contents chosen for a text stand for the text |
| TextModes.ShortestMode | external/qrcodegen/QrCode.cpp:123-138 | a text that is not empty gets one segment, and no single segment of any mode that stands for the text is shorter at any version |
| TextModes.ChosenFitsToo | external/qrcodegen/QrCode.cpp:123-138 | where any single segment that stands for the text fits, the chosen one fits, for every version and level |
| QrEncoder.ChosenFitsIff | external/qrcodegen/QrCode.cpp:123-138 | the chosen segment fits exactly where some single segment that stands for the text does |
| EncodeData.TotalBitsBy | external/qrcodegen/QrCode.cpp:177-191 | the sum of all lengths, or -1 exactly if a count does not fit its field or the sum exceeds INT_MAX |
| EncodeData.GetTotalBits | external/qrcodegen/QrCode.cpp:177-191 | the length of the stream of the segments at a version, or -1 exactly if they cannot be encoded |
| EncodeData.StreamLength | external/qrcodegen/QrCode.cpp:287-295 | the concatenated stream has the length that was computed before |
| EncodeData.Concatenate | external/qrcodegen/QrCode.cpp:287-295 | mode, count and data of every segment in order, with no append failing |
| EncodeData.Pad | external/qrcodegen/QrCode.cpp:297-308 | a terminator of at most four bits, zeros to a whole byte, then alternating pad bytes up to the capacity |
| EncodeData.PadAlternates | external/qrcodegen/QrCode.cpp:307-308 | the exclusive or with 0xEC ^ 0x11 alternates between the two pad bytes |
| EncodeData.PaddingIs | external/qrcodegen/QrCode.cpp:297-308 | after the stream all bits are zero up to the first byte boundary four bits later, and from there the codewords are 0xEC and 0x11 in turn |
| EncodeData.ChooseVersion | external/qrcodegen/QrCode.cpp:260-277 | the smallest version in range that has room, or a failure exactly if none has |
| EncodeData.BoostLevel | external/qrcodegen/QrCode.cpp:281-285 | with boosting the highest level that fits, never below the requested one; without it the requested one |
| EncodeData.EncodeSegments | external/qrcodegen/QrCode.cpp:255-313 | fails exactly on invalid arguments or if no version has room; version, level and codewords as promised, the codewords carrying the terminated and padded stream |
| SegmentStream.ReadStream | external/qrcodegen/QrCode.cpp:287-308 | a decoder of mode, count and data recovers all contents, with truncated terminators and padding behind them |
| EncodeData.DecodeEncoded | external/qrcodegen/QrCode.cpp:255-313 | the padded codewords of factory-made segments read back as exactly what the segments were made from |
| Versions.RawModulesInRange | external/qrcodegen/QrCode.cpp:711-724 | the number of data modules is 208 to 29648 for every version |
| Versions.QrSound | external/qrcodegen/QrCode.cpp:827-843 | for every version and level there are blocks, each with data and 1 to 30 error correction codewords, and fewer than 255 codewords in all |
| Interleave.LayoutAddsUp | external/qrcodegen/QrCode.cpp:533-538 | for any parameters with room for error correction, the splits consume the data exactly and the columns take exactly the raw codewords |
| Interleave.BuildBlocks | external/qrcodegen/QrCode.cpp:540-551 | every block is its part of the data, a padding codeword if it is short, and its error correction codewords |
| Interleave.InterleaveBlocks | external/qrcodegen/QrCode.cpp:553-561 | the columns in order, without the padding of the short blocks |
| Interleave.ColumnsAt | external/qrcodegen/QrCode.cpp:553-561 | the codeword of block j in column i is at the position the layout gives |
| Interleave.DataByTurns | external/qrcodegen/QrCode.cpp:540-561 | codeword i of block j, below the length of the short blocks, is at i * blocks + j, and is the one i places after the data of the blocks before it |
| Interleave.LongerBlocksEnd | external/qrcodegen/QrCode.cpp:540-561 | behind them are the last data codewords of the longer blocks, in their order |
| Interleave.EccByTurns | external/qrcodegen/QrCode.cpp:540-561 | behind all data the error correction codewords computed of each block's own data, by turns |
| Interleave.AddEccAndInterleave | external/qrcodegen/QrCode.cpp:529-565 | fails exactly on data of the wrong length; otherwise the interleaved blocks |
| Interleave.ReadAllCodewords | external/qrcodegen/QrCode.cpp:529-565 | de-interleaving recovers all data and the data and error correction codewords of every block |
| QrReader.BlocksAreCodewords | external/qrcodegen/QrCode.cpp:529-565 | every block read from a symbol's codewords vanishes at the roots, and blocks of different data differ in more places than they have error correction codewords |
| Zigzag.WalkVisitsOnce | external/qrcodegen/QrCode.cpp:574-589 | in every grid of odd size from 7 the walk visits every cell outside column 6 exactly once and no other |
| Zigzag.WalkAt | external/qrcodegen/QrCode.cpp:574-589 | in grids of QR sizes, which are 1 more than a multiple of 4, the place of every cell: strips of two columns from the right without column 6, the first upward and then in turn, each row from right to left |
| Zigzag.WalkStartsLowerRight | external/qrcodegen/QrCode.cpp:574-583 | the first cell is the lower right corner |
| Grids.DrawAt | external/qrcodegen/QrCode.cpp:574-589 | each free cell of a walk without repetition gets the bit of its rank, or keeps its module when the bits are used up |
| Grids.DrawKeeps | external/qrcodegen/QrCode.cpp:582-585 | function modules and cells off the walk are untouched |
| Grids.DrawUses | external/qrcodegen/QrCode.cpp:591-592 | all bits are used exactly if there are free cells for them |
| Grids.ReadDrawn | external/qrcodegen/QrCode.cpp:568-593 | rereading the walk returns the bits |
| QrCodes.QrCode.DrawCodewords | external/qrcodegen/QrCode.cpp:568-593 | the nested loops draw the codewords along the walk; fails exactly on a wrong number of codewords or too few free cells |
| FreeCells.CoverAndData | external/qrcodegen/QrCode.cpp:711-724 | boxes around the function patterns and the data modules together have the area of the grid |
| FreeCells.FunctionDotsCovered | external/qrcodegen/QrCode.cpp:416-513 | every module of every function pattern is in one of the boxes |
| FreeCells.EnoughFree | external/qrcodegen/QrCode.cpp:591-592 | every version has a free module for every bit of its codewords, so the final assertion never fails |
| Patterns.AlignPositionInside | external/qrcodegen/QrCode.cpp:695-708 | all alignment patterns are inside the grid, and those on the timing lines between the finders |
| Patterns.MarkAt | external/qrcodegen/QrCode.cpp:516-521 | exactly the modules that are set become function modules |
| Patterns.FormatShows | external/qrcodegen/QrCode.cpp:455-469 | both copies show all fifteen format bits |
| Patterns.ReadFormatBits | external/qrcodegen/QrCode.cpp:445-452 | the format bits name the level and the mask they were made from |
| QrCodes.QrCode.SetFunctionModule | external/qrcodegen/QrCode.cpp:516-521 | sets one module and marks it, and changes no other |
| QrCodes.QrCode.DrawFunctionPatterns | external/qrcodegen/QrCode.cpp:416-442 | timing, finder, alignment, format and version patterns in order, all inside the grid |
| QrCodes.QrCode.DrawFormatBits | external/qrcodegen/QrCode.cpp:445-470 | draws the format on its cells, which stay function modules |
| QrCodes.QrCode.ApplyMask | external/qrcodegen/QrCode.cpp:596-617 | fails without change exactly on a mask outside 0 to 7; otherwise inverts the mask's modules that are not function modules |
| Masks.MaskTwice | external/qrcodegen/QrCode.cpp:341-350 | applying a mask again undoes it |
| Masks.Trial | external/qrcodegen/QrCode.cpp:340-350 | a trial shows the grid finished with its mask and leaves nothing behind but a format |
| QrCodes.QrCode.ChooseMask | external/qrcodegen/QrCode.cpp:338-351 | the least number among the masks of least penalty, and a grid changed at most in the cells of the format |
| PenaltyScore.PenaltyBound | external/qrcodegen/QrCode.cpp:339-353 | every penalty is below the initial minimum, so a mask is always chosen |
| Penalty.RunsSpellLine | external/qrcodegen/QrCode.cpp:623-644 | the runs of a line are the alternating maximal runs that spell it |
| Penalty.AddHistory | external/qrcodegen/QrCode.cpp:806-811 | the shifted history holds the last seven runs, the first of all with the border added |
| Penalty.CountPatterns | external/qrcodegen/QrCode.cpp:785-792 | the finder-like patterns that end at the last run; fails exactly if the run is longer than three times the size |
| Penalty.TerminateAndCount | external/qrcodegen/QrCode.cpp:795-803 | the border completes the patterns of the bordered line |
| Penalty.ScanLine | external/qrcodegen/QrCode.cpp:624-643 | the single pass over any line gives L - 2 for every maximal run of L >= 5 and 40 for every finder-like pattern of the line with its borders; the assertion on run lengths never fails |
| PenaltyScore.CountCells | external/qrcodegen/QrCode.cpp:668-685 | the nested loops count exactly the cells with a property |
| PenaltyScore.ImbalanceIsLeast | external/qrcodegen/QrCode.cpp:687-690 | for an odd number of modules k is the smallest one from 0 on within 45 - 5k to 55 + 5k percent |
| PenaltyScore.GetPenaltyScore | external/qrcodegen/QrCode.cpp:620-692 | the sum of the scores of all rows and columns, of all blocks of one colour and of the balance |
| PenaltyScore.PenaltyOfTransposed | external/qrcodegen/QrCode.cpp:620-692 | a grid and its mirror image in the diagonal have the same penalty, so columns are scored as rows are |
| QrSymbols.MakeQrCode | external/qrcodegen/QrCode.cpp:320-360 | fails exactly on arguments out of range, data of the wrong length or too few free cells; otherwise the grid is the symbol with the requested mask, or with the best one |
| QrSymbols.AutomaticMask | external/qrcodegen/QrCode.cpp:338-356 | the grid of an automatic mask is the one of asking for that mask; no mask has a lower penalty and none before it the same |
| QrSymbols.CanvasReserved | external/qrcodegen/QrCode.cpp:439-440 | the cells of the format are function modules in every version, whatever the mask |
| QrReader.FormatOfSymbol | external/qrcodegen/QrCode.cpp:445-470 | the level and the mask can be read off a finished symbol |
| QrReader.CodewordsOfSymbol | external/qrcodegen/QrCode.cpp:320-360 | taking the mask off and rereading the walk gives all codewords of a finished symbol |
| QrReader.ReadSymbolOf | external/qrcodegen/QrCode.cpp:320-360 | a finished symbol reads as what its data codewords decode to |
| QrEncoder.Encode | external/qrcodegen/QrCode.cpp:255-317 | the whole encoder: succeeds exactly if it can, with the smallest version and the highest level, and the grid reads back as the contents of the segments |
| QrEncoder.QrReadable | external/qrcodegen/QrCode.cpp:711-731 | the encoder's own tables and patterns meet all that is required of them at every version and level |
| QrEncoder.EncodeText | external/qrcodegen/QrCode.cpp:243-246 | text is encoded exactly if it is empty or some single segment of any mode that stands for it fits some version; no smaller version has room, and the symbol reads back as the text |
| AssetAmount.PrintReads | explorer/app.js:122-131 | every natural number reads back from what is printed of it with any number of places |
| AssetAmount.PrintIsShort | explorer/app.js:128-129 | at most `places` digits follow the point, and the last of them is not zero |
| AssetAmount.PrintIsCanonical | explorer/app.js:122-131 | every natural number is printed without leading zeros, and with no point or with one followed by at most as many digits as there are decimals, the last of them not zero |
| AssetAmount.PrintReadsIff | explorer/app.js:122-131 | for every integer and 0 to 255 decimals, what is printed reads back, scaled by that many places, exactly if the number is not negative, has no places, or is a multiple of the scale; other decimals print as the nearest of 0 and 255 |
| AssetAmount.NegativeIsBroken | explorer/app.js:128-129 | -150 with two places does not read back |
| Hashes.LessTotal | src/blockchain_db/asset_db.cpp:46 | of two different ids one is before the other |
| Registries.BeforeStrict | src/blockchain_db/asset_db.cpp:43-47 | height, then id, is a strict order |
| Registries.AssetRegistry.RefuseMembership | src/cryptonote_basic/asset_types.cpp:547-568 | a claimed collection must be known, a collection, of the same network, not younger and signed for; an unclaimed signature is refused |
| Registries.AssetRegistry.ApplyIssuance | src/cryptonote_basic/asset_types.cpp:532-572 | registers a new, signed issuance under its derived id, or refuses it without change |
| Registries.AssetRegistry.LoadFrom | src/blockchain_db/asset_db.cpp:43-65 | sorts, then replays every record into a new registry; on any failure the caller's registry is untouched |
| Sorting.SortUnique | src/blockchain_db/asset_db.cpp:43-47 | sorting by a strict total order gives one result for every order of the same elements |
| Reloads.OrderIrrelevant | src/blockchain_db/asset_db.cpp:29-65 | any two enumerations of the same records load to the same outcome and the same registry |
| Reloads.LoadedIsStored | src/blockchain_db/asset_db.cpp:49-63 | a loaded registry has exactly the stored ids, each with its stored height and issuance |
| Reloads.LoadedIsSigned | src/cryptonote_basic/asset_types.cpp:532-572 | every record of a loaded registry is filed under its derived id, of the network and signed by its issuer; a collection it claims is there, is a collection of the network, not younger, and its issuer signed for the record |
| Reloads.ReloadIff | src/blockchain_db/asset_db.cpp:29-65 | after an accepted issuance is stored, loading succeeds exactly if its network is the expected one and its collection sorts before it, and gives the registry with it added |
| Reloads.ReloadLater | src/blockchain_db/asset_db.cpp:29-65 | above all stored heights an issuance of the expected network always loads again |
| Reloads.SameHeightFails | src/blockchain_db/asset_db.cpp:29-65 | a member accepted at the height of its collection, with a smaller id, after which nothing loads |
| HeightTables.Add | src/blockchain_db/lmdb/db_lmdb.cpp:2471-2491 | a new key gets its entry and its place in the height index; an existing key is an error |
| HeightTables.RemoveFrom | src/blockchain_db/lmdb/db_lmdb.cpp:2510-2541 | walking the height index removes exactly the entries from a height on |
| HeightTables.AllAdded | src/blockchain_db/asset_db.cpp:212-227 | adding several new distinct keys adds exactly their values |
| AssetDbs.AssetDb.LoadRegistry | src/blockchain_db/asset_db.cpp:29-65 | loads the registry of the stored records, whatever the order of enumeration, or leaves the caller's untouched |
| AssetDbs.AssetDb.VerifyOwnership | src/blockchain_db/asset_db.cpp:98-119 | true exactly if the key image is unspent, every ring member resolves to a stored output of the asset with the same key and commitment, and the proof verifies |
| AssetDbs.AssetDb.DeriveIds | src/blockchain_db/asset_db.cpp:186-204 | the ids of all outputs under one running index, or none exactly if one cannot be derived or exists |
| AssetDbs.AssetDb.VerifyTransaction | src/blockchain_db/asset_db.cpp:121-160 | the pool's check is true exactly if the transaction is acceptable at the given height |
| AssetDbs.AssetDb.ApplyTransaction | src/blockchain_db/asset_db.cpp:162-230 | rejected without change exactly if not acceptable or not encodable; applied exactly if also its ids are distinct, adding exactly its record, key images and outputs |
| AssetDbs.AssetDb.RemoveFromHeight | src/blockchain_db/blockchain_db.cpp:319-324 | all three tables lose exactly the entries from a height on |
| AssetTransactions.AppliesIff | src/blockchain_db/asset_db.cpp:121-230 | with ids that differ by index, the consensus step applies a transaction exactly if the pool's check at that height accepts it and any issuance encodes |
| AssetTransactions.FiledUnderOwnIndex | src/blockchain_db/asset_db.cpp:186-227 | every output is filed under the id derived from the index stored in it, so both counting passes agree |
| AssetTransactions.AppliedOutput | src/blockchain_db/asset_db.cpp:214-227 | output i of group g is stored at the height with the asset, destination, commitment, key, amount and view tag the payload gives it, under the id of its running index |
| AssetTransactions.NoOtherOutput | src/blockchain_db/asset_db.cpp:214-227 | no other output is new, and none stored before changes |
| AssetTransactions.AppliedImages | src/blockchain_db/asset_db.cpp:212-213 | exactly the key images of the proofs are new, at the height |
| AssetTransactions.AppliedRecord | src/blockchain_db/asset_db.cpp:206-211 | an issuance adds its encoding at the height under the id of its descriptor, which no record had, and nothing else is recorded |
| AssetTransactions.AppliedGrows | src/blockchain_db/asset_db.cpp:206-227 | an applied transaction changes no entry and adds only entries of its height |
| Ledgers.RemovePushed | src/blockchain_db/lmdb/db_lmdb.cpp:1173-1209 | removing the output that was added last restores its list and its origin |
| Ledgers.UndoneIff | src/blockchain_db/lmdb/db_lmdb.cpp:1150-1171 | removing a transaction's outputs restores all lists exactly if they are removed from the lists they were added to |
| Ledgers.AddOutsStored | src/blockchain_db/blockchain_db.cpp:230-247 | every output is in the list of its amount, or of amount zero for a version 2 miner transaction, with its own key and commitment, the unlock time and the height, and an id that leads back to it; nothing stored before changes |
| Chains.SpendAll | src/blockchain_db/blockchain_db.cpp:206-222 | inputs are accepted exactly if all are supported and their key images are new and pairwise distinct, and then exactly those are spent |
| Chains.AddTxIff | src/blockchain_db/blockchain_db.cpp:182-247 | a transaction is added exactly if its key images are fresh and distinct, its hash is new and its outputs can be stored |
| Chains.AddTxStores | src/blockchain_db/blockchain_db.cpp:182-247 | adding a transaction stores it with all its outputs, spends exactly its key images and adds exactly its hash, and changes nothing else |
| Chains.AddBlockStores | src/blockchain_db/blockchain_db.cpp:249-308 | adding a block stores the miner transaction and the others at its height, and exactly their hashes and key images are new |
| Chains.RemoveTxIff | src/blockchain_db/blockchain_db.cpp:344-358 | removing a transaction that was just added gives back the ledger exactly if it is consistent about amount zero |
| Chains.NotUndone | src/blockchain_db/blockchain_db.cpp:230-245 | a transaction with two generating inputs whose removal does not give back the ledger |
| Chains.PopAdded | src/blockchain_db/blockchain_db.cpp:315-337 | popping a block of consistent transactions gives back the chain, the block and its transactions in reverse order |
| Chains.PopAddedIff | src/blockchain_db/blockchain_db.cpp:315-337 | for a block in which only the miner transaction generates coins, popping gives back the chain, the block and its transactions in reverse order exactly if the miner transaction is consistent about amount zero |
| BlockchainDbs.BlockchainDb.AddInputs | src/blockchain_db/blockchain_db.cpp:206-222 | spends the key images in order and finds out whether the transaction generates coins; fails on a spent image or an unsupported input |
| BlockchainDbs.BlockchainDb.AddOutput | src/blockchain_db/lmdb/db_lmdb.cpp:1060-1124 | appends an output to the list of its amount; fails exactly without a key, or without a commitment for amount zero |
| BlockchainDbs.BlockchainDb.AddTransaction | src/blockchain_db/blockchain_db.cpp:182-247 | inputs, then the transaction, then its outputs, with version 2 miner outputs at amount zero |
| BlockchainDbs.BlockchainDb.RemoveOutputs | src/blockchain_db/lmdb/db_lmdb.cpp:1150-1171 | removes the outputs from the last to the first by amount and stored index |
| BlockchainDbs.BlockchainDb.RemoveTransaction | src/blockchain_db/blockchain_db.cpp:344-358 | removes key images, outputs and data of a stored transaction; fails if it is not there |
| BlockchainDbs.BlockchainDb.AppendBlock | src/blockchain_db/blockchain_db.cpp:249-308 | the miner transaction, the others under the listed hashes, then a new block on the top block; fails on a number of hashes that differs |
| BlockchainDbs.BlockchainDb.Pop | src/blockchain_db/blockchain_db.cpp:315-337 | the assets from the block's height on, the block, its transactions from the last to the first and its miner transaction are removed; fails on an empty chain |
| NodeDbs.ApplyPayloads | src/cryptonote_core/blockchain.cpp:4474-4484 | a block's asset transactions are applied in order at its height, and any that is not applied fails the block |
| NodeDbs.AddLayer | src/cryptonote_core/blockchain.cpp:4470-4503 | a block is added with its asset transactions, or nothing changes |
| NodeDbs.PopLayer | src/blockchain_db/blockchain_db.cpp:315-337 | the top block is popped with its assets, or nothing changes |
| AssetRuns.EventReloads | src/blockchain_db/asset_db.cpp:167-187 | after an applied asset transaction the registry loads again, as the next one needs, exactly if it had no issuance, or one of the node's network whose collection sorts before it |
| AssetRuns.GrowthUndone | src/blockchain_db/blockchain_db.cpp:319-324 | removing from a height on gives back the asset tables from before that height |
| ChainRuns.RunReplayed | src/blockchain_db/blockchain_db.cpp:315-337 | after every run of adding and popping blocks the asset tables are those of applying the surviving blocks' asset transactions to empty tables |
| AssetRuns.AllSound | src/blockchain_db/asset_db.cpp:98-119 | asset transactions applied one after the other have disjoint, spent key images and rings that resolve in the final tables |
| AssetRuns.EventsChecked | src/blockchain_db/asset_db.cpp:98-160 | asset transactions applied one after the other all passed the check of their payload, and each of their proofs the check of ownership |
| ChainRuns.RunSound | src/blockchain_db/asset_db.cpp:162-230 | in every reachable state all surviving asset transactions have disjoint, spent key images, rings that resolve, and passed all checks, across reorganisations |
| ChainRuns.RunLinked | src/blockchain_db/lmdb/db_lmdb.cpp:792-809 | after every run the chain is the surviving blocks, each naming the hash of the one before it, and all hashes are different |
| ChainRuns.RetractExtended | src/blockchain_db/blockchain_db.cpp:315-337 | popping a block that was just added with its asset transactions gives back all tables |
| ChainRuns.RunRebuilt | src/blockchain_db/blockchain_db.cpp:249-337 | after every run of consistent blocks spent keys, transactions, outputs, blocks and assets are those of the surviving blocks |
| ChainRuns.RunStores | src/blockchain_db/blockchain_db.cpp:182-337 | after every such run the transactions of each surviving block are stored at its height with all their outputs, and exactly their hashes and key images are there |
| ChainRuns.PopSucceeds | src/blockchain_db/blockchain_db.cpp:315-337 | in such a run a pop fails exactly on an empty chain |

## Left out

- The formulas of the eight masks, the colours of the function patterns, the order of the format's cells, the numbers in
  the tables, the mode numbers and the widths of the count fields, the weights of the penalties and the check bits of format
  and version information are definitions: the proofs use that masks are inverted twice, where patterns are, and the data
  bits of the format. That the check bits keep their width (lines 452 and 482 of `QrCode.cpp`) is built into the register.
- QrCodes.QrCode.DrawFunctionPatterns: timing, finder, alignment and version patterns are drawn from lists of modules in
  the source's order, not by a loop of their own each.
- Kanji segments, `encodeBinary`, `toSvgString` and the accessors of `QrCode`: they would add easy members only.
- Cryptography, hashing and serialisation: parameters, as said above.
- The wording of error messages and the order of checks that only decides which message is given.
- Tables of LMDB that only serve access (transaction ids by hash, prunable data, block information, hard fork state), and
  failures of the storage itself.
- `apply_block_extensions_to_db`, an older path of issuances that blocks do not take.
- The relay flags, options and statistics of `blockchain_db.cpp`.
- Chains.PopAdded: asks every transaction of the block to be consistent. That is exact for one transaction
  (`Chains.RemoveTxIff`) and for blocks in which only the miner transaction generates coins (`Chains.PopAddedIff`); in other
  blocks two inconsistent transactions can cancel.
- Of `explorer/app.js` everything but `assetAmount`, and of that the fallback for values that are no integers.
