# ChromoFold: verified model

A Dafny model of the parts of ChromoFold whose correctness is hardest to see, with proofs that they do what the
program relies on. `dafny verify dfyconfig.toml` checks everything.

**The compressed full-text index** (`tools/build_index.cpp`). The whole pipeline is modelled in its own form: prefix
doubling, the Burrows-Wheeler transform, a wavelet matrix whose levels are RRR bit vectors, the two-level samples, the
count table and the mark plane, then the queries that read them back. Refinement goes layer by layer: words to block
classes and offsets (`Bits`, `Enumerative`, `Rrr`), blocks to a bit plane and its rank (`Samples`, `LevelRank`), planes
to a symbol sequence (`Wavelet`, `WaveletIndex`, `WaveletBuild`), sequence and suffix array to substring occurrences
(`Permutations`, `SuffixArray`, `FmIndex`, `Marks`, `FmQuery`). `SelfCheck.BuildAndCheck` is the program's own
self-check: for every stream that fits, every sampling step and every list of patterns it is proved exactly when it
passes, and it always does on non-empty patterns over the alphabet.

**Compressed-KV attention** (`src/runtime/kv_runtime.cpp`, `src/runtime/kv_reference.cpp`). Numbers are reals, and
`exp` is any function with exp(0) = 1, exp > 0 and exp(a+b) = exp(a) exp(b) (`Softmax.Exp`). `Softmax` holds the laws,
`OnlineSoftmax` the two accumulators as classes, `SealedPages` the int4 reference page, `PagedAttention` the reference
attention, `AttentionAnswer` its answer as one formula over the inputs, `KvLayout` layout validation and overflow-checked accounting in 64 bits.

**State machines.** `SequenceCache` is the reference-counted cache of shared pages (its values in `CacheModel`, the
arithmetic of its books in `CacheBooks`), `CachePositions` what its operations do to the positions a layer holds,
`CacheRuns` what all of them keep, `Speculations` the runs of begin, append, commit and roll back. `Leases` has the
page leases of the cluster runtime over whole runs, `LeaseTimes` how long they last and who may act on them.
`Schedulers` is the production scheduler (values in `SchedulerModel`), `SchedulerRuns` whole runs of it. Each class
keeps an invariant through every operation, successful or not; where an operation does not keep it, the exact
condition is stated.

**Codecs.** `ByteCodes`, `Blockwise` and `Recompression` are the 2-, 4- and 8-bit page codecs, `AdaptiveCompression`
the choice of a codec and the runtime around it, `BudgetThreshold` the pages that stay inside the error budget,
`SymbolStreams` and `FixturePages` the 4- and 8-bit symbol streams. `Slots`, `Common`, `Arithmetic` and `Sequences` are
shared.

Machine words are sequences of bits, least significant first; 32- and 64-bit wrap-around is written out where the code
can meet it. Every call into the clock is a parameter.

## Where the code does less than it seems to

Each of these is proved, with the condition under which the code does what its name says.

- A pattern that holds -1 is shifted onto the terminator: count and locate then answer for the text read cyclically
  (`SelfCheck.CheckPattern`, `SelfCheck.TerminatorRead`).
- An alphabet of more than 2^30 symbols overflows the 32-bit shift that counts its bits, before the count has ended
  (`SelfCheck.BitsFor`).
- A query loses its attention window at the last 32-bit position, and the positions themselves wrap behind it
  (`PagedAttention.WindowExact`).
- A removal that cuts a page after releasing another of the same layer leaves released pages referenced
  (`SequenceCache.Cache.Remove`, `CacheModel.RemovalLosesPages`).
- Speculation restores or keeps the right tokens only when all layers had equally long tails at the start
  (`Speculations.CommitKeepsAccepted`, `Speculations.RollbackRestores`, `Speculations.RollbackInvents`).
- Rolling back also undoes what a removal has cut from a tail since the baseline was taken
  (`CachePositions.RollbackRevives`).
- A copy silently leaves out a page or a tail the range splits, a shift silently leaves a split tail where it is, and
  removing an empty range is refused inside a page or the tail (`CachePositions.CopyCompleteExactly`,
  `CachePositions.ShiftedPositions`, `CachePositions.SplitTailStays`, `CachePositions.RemovableExactly`).
- The token count of an append is added in 32 bits and can wrap below the page size (`Speculations.AppendAddsTokens`,
  `Speculations.AppendCanWrap`), and a tail wrapped to nothing can begin anew elsewhere, which neither commit nor roll
  back undoes (`Speculations.WrapMovesStart`, `Speculations.RollbackRestores`).
- The error budget of the adaptive codec can be exceeded, by at most a half. Blocks of one value apart, the greatest
  magnitudes for which some page exceeds it are exactly those above 2 qmax times the budget
  (`BudgetThreshold.SafeExactly`, `AdaptiveCompression.BudgetExceeded`, `AdaptiveCompression.WithinBudget`).
- A page that does not fit the budget under the codec asked for is recompressed raw
  (`AdaptiveCompression.NarrowedChoice`, `AdaptiveCompression.RecompressedRaw`).
- The number of blocks is rounded up in 32 bits: when count plus block size exceeds 2^32 the values behind the last
  block are not encoded (`Blockwise.BlocksCover`, `Blockwise.Pack`, `Blockwise.NoBlockLeft`).
- The bit offsets of a symbol stream's blocks are truncated from bit 2^31 on (`SymbolStreams.BlockOffset`,
  `SymbolStreams.BlockOffsetWraps`).
- A tenant's fairness is part of every worker's score alike, so it has no say in which worker is chosen
  (`SchedulerModel.CheapestWorker`).
- A request id that was charged once can be admitted again but never completed again, only cancelled
  (`Schedulers.Scheduler.Complete`, `Schedulers.ReusedId`).

## Model

| member | source | states |
|---|---|---|
| `Enumerative.InitTables` | tools/build_index.cpp:31-42 | the two tables hold exactly the binomials C(n,k) and, for each class, the least width whose powers of two reach C(15,k) |
| `Enumerative.WidthFor` | tools/build_index.cpp:38-40 | the loop finds the least sufficient width, 0 when one value only is possible |
| `Enumerative.OffsetBound` | tools/build_index.cpp:103-112 | the offset of a block of T bits with r ones is below C(T,r), so it fits its field |
| `Enumerative.OffsetInjective` | tools/build_index.cpp:103-112 | two blocks with as many ones and the same offset are the same block |
| `Enumerative.OffsetOrders` | tools/build_index.cpp:103-112 | within a class the offsets are in the order of the blocks as numbers |
| `Enumerative.GreedyColumn` | tools/build_index.cpp:238-239 | the inner loop stops at the greatest column whose binomial does not exceed the rest, never below column 0 |
| `Enumerative.DecodeWord` | tools/build_index.cpp:234-245 | for every block the greedy decoder returns the block from its class and offset, and nothing above bit T |
| `Enumerative.DecodeInvertsEncode` | tools/build_index.cpp:234-245 | what the decoder needs holds for every block: decoding undoes encoding |
| `Rrr.EncodeBlock` | tools/build_index.cpp:102-112 | the column loop computes the number of ones and the enumerative offset of a block, reading zeros behind the end |
| `Rrr.OrField` | tools/build_index.cpp:129-133 | or-ing a value of w bits at a bit position, across two words if need be, stores exactly that field, changes nothing before it and leaves everything behind it clear |
| `Rrr.PackClasses` | tools/build_index.cpp:94-117 | every 4-bit class can be read back from the packed stream after all later writes; offsets start at the running sum of widths |
| `Rrr.PackOffsets` | tools/build_index.cpp:122-134 | every variable-width offset can be read back from the stream, straddling or not, after all later writes |
| `Rrr.OffsetFits` | tools/build_index.cpp:116-133 | a block's offset is below two to the width of its class |
| `Rrr.RankInBlock` | tools/build_index.cpp:249-258 | ones before a position = ones before its block + ones before it within the block |
| `Rrr.SamplesMonotone` | tools/build_index.cpp:142-146 | samples never decrease, and consecutive blocks add at most 15 ones and at most 15 offset bits |
| `Rrr.TakeSamples` | tools/build_index.cpp:136-146 | one sample per superblock and one behind the last, each the 32-bit cumulative sum at that block |
| `Rrr.RrrEncode` | tools/build_index.cpp:90-148 | the encoded plane holds, for every block of the plane, its class and offset where the reader looks, exact samples, and the number of zeros |
| `Samples.TwoLevel` | tools/build_index.cpp:151-161 | a sample is recovered as anchor + 16-bit difference if and only if its distance from its anchor fits 16 bits |
| `Samples.DeltaBound` | tools/build_index.cpp:150-161 | that distance is at most 29760 for the rank and the offset samples of every plane |
| `Samples.SplitSamples` | tools/build_index.cpp:200-214 | so splitting the samples of any plane loses nothing |
| `LevelRank.ClassAt` | tools/build_index.cpp:221-224 | the shifted and masked word is the stored class field |
| `LevelRank.ReadBits` | tools/build_index.cpp:225-233 | the bits read at any position, from one word or two, are the field stored there |
| `LevelRank.ReadBlock` | tools/build_index.cpp:253-256 | reading class and offset and decoding gives the block of the bit plane |
| `LevelRank.ScanClasses` | tools/build_index.cpp:252 | the class scan adds the ones and the offset bits of the blocks it passes |
| `LevelRank.Rank1Level` | tools/build_index.cpp:246-260 | for every level and every position up to and including the end, the number of ones of the bit plane before that position |
| `Wavelet.PartitionRange` | tools/build_index.cpp:193-198 | a stable partition sends the elements of a range with a given bit to a contiguous range, in order |
| `Wavelet.SelectLength` | tools/build_index.cpp:193-198 | each half of the partition is as long as the number of elements with its bit |
| `WaveletBuild.PartitionPasses` | tools/build_index.cpp:182-198 | two passes of pushes give the next level: zeros first, then ones, each in the old order |
| `WaveletBuild.EncodeLevels` | tools/build_index.cpp:180-199 | every level's plane is stored in the concatenated streams, whatever is appended later, at the recorded base |
| `WaveletBuild.SplitLevels` | tools/build_index.cpp:200-214 | row by row, anchors and differences reproduce the samples of their level |
| `WaveletBuild.BuildWavelet` | tools/build_index.cpp:172-218 | the assembled index holds the given symbol sequence, level by level |
| `WaveletIndex.Access` | tools/build_index.cpp:261-269 | symbol i of the indexed sequence, for every i |
| `WaveletIndex.Rank` | tools/build_index.cpp:270-279 | the number of occurrences of c among the first i symbols, for every c that has at most that many bits and every i up to the length |
| `WaveletIndex.TracksNext` | tools/build_index.cpp:272-277 | one level keeps the invariant: [p,q) holds exactly the prefix elements that share the leading bits of c, in order |
| `SuffixArray.BuildSuffixArray` | include/chromofold/detail/suffix_cpu.hpp:31-48 | terminates for every non-empty text over non-negative symbols and returns a permutation whose suffixes strictly increase |
| `SuffixArray.Rerank` | tools/build_index.cpp:73-75 | new ranks compare like the pairs they are made from, and number the sorted order from 0 |
| `SuffixArray.RerankDoubles` | tools/build_index.cpp:66-77 | if ranks order the prefixes of length k, the new ranks order those of length 2k |
| `SuffixArray.SuffixArrayUnique` | tools/build_index.cpp:62-79 | a text has one suffix array only, so both copies of the routine agree |
| `FmIndex.FollowsPermutes` | tools/build_index.cpp:374-375 | following every row by the row of the next suffix, cyclically, is a permutation of the rows |
| `FmIndex.BwtFollow` | tools/build_index.cpp:374-375 | the symbol of the transform at the row that follows row r is the first symbol of suffix r |
| `FmIndex.BackwardStep` | tools/build_index.cpp:305 | C[c] + rank(c, r) is the row of the symbol c put before suffix r |
| `FmIndex.RowsOfStep` | tools/build_index.cpp:302-306 | one step of backward search keeps: [lo,hi) are exactly the rows whose suffix reads the searched part of the pattern |
| `FmIndex.MatchIsSubstring` | tools/build_index.cpp:299-308 | for a pattern without the terminator, a cyclic reading is an ordinary substring |
| `FmIndex.StepBack` | tools/build_index.cpp:313-314 | one step of the walk goes from the row of position x to the row of position x - 1 |
| `Marks.BuildDirectory` | tools/build_index.cpp:466-468 | the directory holds the ones before every eighth word |
| `Marks.PackedRank1` | tools/build_index.cpp:283-288 | directory entry + whole words + masked word = ones before the position |
| `Marks.MarkSamples` | tools/build_index.cpp:463-465 | exactly the rows of positions divisible by the step are marked; the values are collected in row order |
| `Marks.SampleRead` | tools/build_index.cpp:317-318 | the rank of a marked row is the index of its position in the collected values |
| `FmQuery.BuildCountTable` | tools/build_index.cpp:460-462 | C[c] is the number of symbols below c in the transform |
| `FmQuery.BuildOracle` | tools/build_index.cpp:456-468 | the oracle built from transform and suffix array is the one the queries need |
| `FmQuery.Backward` | tools/build_index.cpp:299-308 | for every pattern, inside the alphabet or not, the rows found are exactly those whose suffix reads the pattern |
| `FmQuery.LocateOne` | tools/build_index.cpp:310-319 | for every row, the walk ends after sa[row] mod sa_sample steps and returns sa[row] |
| `SelfCheck.Transform` | tools/build_index.cpp:368-375 | the transform of the shifted stream with its terminator |
| `SelfCheck.MakeText` | tools/build_index.cpp:368-371 | while the alphabet has at most 2^30 symbols, narrowing every token to 32 bits and adding one gives the token plus one; the terminator is put behind |
| `SelfCheck.BitsFor` | tools/build_index.cpp:376-378 | the loop over the 32-bit shift ends exactly for at most 2^30 symbols, and then with the least number of bits, at least 1, that holds every symbol |
| `SelfCheck.BuildIndex` | tools/build_index.cpp:359-381 | every stream with at most 2^30 symbols whose sizes fit yields an index on which count and locate are correct |
| `SelfCheck.NaivePositions` | tools/build_index.cpp:322-333 | exactly the positions where the pattern occurs, in increasing order |
| `SelfCheck.CheckAccess` | tools/build_index.cpp:389 | access equals the transform at every probed position |
| `SelfCheck.CheckPattern` | tools/build_index.cpp:479-491 | count and sorted locate equal the naive search if and only if the pattern is not empty and does not hold -1 or is not read cyclically with it |
| `SelfCheck.BuildAndCheck` | tools/build_index.cpp:384-491 | the program's own two verdicts for every stream whose alphabet and sizes fit, every probe list and pattern list: access always passes; count and locate pass exactly when every pattern is answerable |
| `SelfCheck.TerminatorRead` | tools/build_index.cpp:299-308 | the stream [0] does not hold the pattern [-1], but its text reads it at the terminator |
| `Softmax.MergeSums` | src/runtime/kv_runtime.cpp:219-243 | merging two states stands for concatenating what they saw; a state that saw nothing is neutral |
| `Softmax.AddIsMerge` | src/runtime/kv_runtime.cpp:193-217 | accumulating a token is merging the state of that token alone |
| `Softmax.FinalMean` | src/runtime/kv_runtime.cpp:245-254 | the quotient of a state is the softmax-weighted mean of what it saw, whatever maximum it carries |
| `Softmax.OrderIrrelevant` | src/runtime/kv_runtime.cpp:193-243 | the two sums do not depend on the order of the tokens |
| `Softmax.SplitIrrelevant` | src/runtime/kv_runtime.cpp:193-254 | any nested split of any reordering of a list, accumulated and merged, finalises to the direct weighted mean |
| `OnlineSoftmax.OnlineSoftmaxState.Init` | src/runtime/kv_runtime.cpp:179-191 | clears the state; refuses dimension 0 and dimensions above the limit |
| `OnlineSoftmax.OnlineSoftmaxState.Accumulate` | src/runtime/kv_runtime.cpp:193-217 | the new state is the specification's Add of the old one |
| `OnlineSoftmax.OnlineSoftmaxState.MergeFrom` | src/runtime/kv_runtime.cpp:219-243 | the new state is the specification's Merge of the two, whatever they share; different dimensions are refused |
| `OnlineSoftmax.OnlineSoftmaxState.Finalize` | src/runtime/kv_runtime.cpp:245-254 | gives the weighted mean of any token list the state stands for; an uninitialised state is refused |
| `OnlineSoftmax.OnlineState.AddToken` | src/runtime/kv_reference.cpp:57-66 | the reference accumulator does the same as the runtime's, its first token included |
| `SealedPages.PackValue` | src/runtime/kv_reference.cpp:25-33 | stores one signed nibble; every other nibble of the page is unchanged |
| `SealedPages.ByteOfValues` | src/runtime/kv_reference.cpp:25-38 | a byte is two four-bit values, the earlier in its low half |
| `SealedPages.QuantizeError` | src/runtime/kv_reference.cpp:44-48 | a value its scale covers is quantised to within half the scale |
| `SealedPages.NearestNibble` | src/runtime/kv_reference.cpp:44-48 | the code is the nearest to the value of all fifteen |
| `SealedPages.ResidentExactly` | src/runtime/kv_reference.cpp:87-90 | what a valid page takes: half a byte a value, rounded up, and four bytes a scale |
| `SealedPages.SealInt4Page` | src/runtime/kv_reference.cpp:106-149 | a page exactly when the arguments are valid; every key and value is read back to within half its scale, and each scale is the least that covers its channel or token |
| `SealedPages.DequantizePage` | src/runtime/kv_reference.cpp:151-162 | both tensors as the page's nibbles and scales say |
| `PagedAttention.WindowExact` | src/runtime/kv_reference.cpp:195-206 | the computed bounds are the causal window if and only if the query's position and the next one fit 32 bits, or its position is the last one and there is no window |
| `PagedAttention.HeadGroups` | src/runtime/kv_reference.cpp:69-72 | equal consecutive groups of query heads share a KV head |
| `PagedAttention.FindOverlap` | src/runtime/kv_reference.cpp:180-189 | finds an overlap exactly when two sealed pages of one head overlap |
| `PagedAttention.OverlapExactly` | src/runtime/kv_reference.cpp:180-189 | two pages overlap exactly when they are of one head and share a position |
| `PagedAttention.PagedAttention` | src/runtime/kv_reference.cpp:164-243 | refuses exactly the inputs with a bad shape, page, tail, overlap or a query head that sees nothing; otherwise every query head gets the softmax mean over exactly the visible tokens of its KV head, and each of the three counters is the head dimension times the number of such tokens: of all, of those in pages, of those in tails |
| `PagedAttention.AttendedSplits` | src/runtime/kv_reference.cpp:205-213 | after any number of query heads the attended tokens are those in pages and those in tails |
| `PagedAttention.PageOrderIrrelevant` | src/runtime/kv_reference.cpp:164-243 | whatever the order of the pages, the call has the same outcome: the same refusal, or the same output and counters |
| `PagedAttention.PagedIsDense` | src/runtime/kv_reference.cpp:164-243 | the answer is the masked softmax over all tokens of the KV head |
| `AttentionAnswer.Head.AnswerFromInputs` | src/runtime/kv_reference.cpp:164-243 | every component of the answer, written from the inputs alone: over every token of every page and tail of the head's group that lies in the causal window, the sum of exp(score_scale * query.key) times the value, divided by the sum of those weights |
| `AttentionAnswer.Head.CountsFromInputs` | src/runtime/kv_reference.cpp:205-213 | how many tokens a query head attends to in pages and in tails, counted from the inputs; a query head is blind exactly when that is none |
| `AttentionAnswer.AnsweredExactly` | src/runtime/kv_reference.cpp:164-189 | the call gives an output exactly when its shape, pages and tails are as it takes them, no position of a head is in two pages, and every query head has a token in its window |
| `KvLayout.AddU64` | src/runtime/kv_runtime.cpp:9-13 | the exact sum or overflow |
| `KvLayout.MulU64` | src/runtime/kv_runtime.cpp:15-19 | the exact product or overflow: the division guard is exact |
| `KvLayout.AcceptedPage` | src/runtime/kv_runtime.cpp:41-74 | a page is accepted exactly when all its buffers are there, its blocks have room for every value, it has a key scale per channel and a value scale per token, and its end fits 32 bits; never unsupported |
| `KvLayout.ValidateLayout` | src/runtime/kv_runtime.cpp:76-120 | accepts exactly the layouts whose header and pages fit and whose pages are pairwise disjoint per layer and head |
| `KvLayout.OverlapExactly` | src/runtime/kv_runtime.cpp:107-116 | two pages overlap exactly when they are of one layer and head and share a position |
| `KvLayout.AcceptedExactly` | src/runtime/kv_runtime.cpp:76-120 | an accepted layout in terms of positions: every page belongs to a layer and head of the layout, holds at most a page of tokens and only positions before the active tail, and no position of a layer and head is held twice |
| `KvLayout.SealedHistoryFits` | src/runtime/kv_runtime.cpp:99-118 | in an accepted layout the token counts of a layer and head sum to at most where the active tail begins |
| `KvLayout.PageBytesAre` | src/runtime/kv_runtime.cpp:127-138 | every element of each of the eight buffers takes four bytes |
| `KvLayout.PageResidentBytes` | src/runtime/kv_runtime.cpp:122-140 | the exact number of bytes, or unsupported exactly when it exceeds 64 bits |
| `KvLayout.CacheMemoryStats` | src/runtime/kv_runtime.cpp:142-177 | the exact totals over unbounded integers, or unsupported exactly when they exceed 64 bits |
| `CacheModel.ReferencesWithout` | src/multisequence_cache.cpp:155-167 | the references of all sequences do not depend on the order in which sequences are counted |
| `CacheModel.ValidatePageOrder` | src/multisequence_cache.cpp:139-150 | the pass over a layer accepts exactly the layers whose references are non-empty and in order, with the tail behind them |
| `CacheModel.CountedUnique` | src/multisequence_cache.cpp:152-177 | books that balance balance against one set of references only |
| `CacheModel.ShiftLayer` | src/multisequence_cache.cpp:368-388 | shifts a layer exactly when every page is inside or outside the range, nothing goes negative and the result is in order; otherwise says exactly which positions have moved; pages and tail length never change |
| `CacheModel.RemovalLosesPages` | src/multisequence_cache.cpp:319-331 | a removal of [0,6) from pages [0,4) and [4,8) releases the first page, then fails |
| `CachePositions.OrderedExactly` | src/multisequence_cache.cpp:139-150 | the order check accepts exactly the layers without empty pages whose positions increase from page to page and on into the tail |
| `CachePositions.CreatedHoldsNothing` | src/multisequence_cache.cpp:214-233 | a new sequence holds no position |
| `CachePositions.KeptArePicked` | src/multisequence_cache.cpp:319-332 | the references a removal keeps are those of the pages outside the range, in their old order |
| `CachePositions.RemovedPositions` | src/multisequence_cache.cpp:316-341 | a layer the range was removed from holds exactly its old positions outside the range, in pages and tail |
| `CachePositions.RemovableExactly` | src/multisequence_cache.cpp:319-341 | a range can be removed exactly when it splits no page and takes nothing but an end of the tail; an empty range, exactly when it does not fall inside a page or the tail |
| `CachePositions.RemovalByPositions` | src/multisequence_cache.cpp:294-355 | a removal that takes effect: every layer of the sequence has lost exactly the range, every other sequence nothing |
| `CachePositions.RollbackRevives` | src/multisequence_cache.cpp:527-530 | rolling back brings back the tail a removal has cut since the baseline was taken |
| `CachePositions.CopiedArePicked` | src/multisequence_cache.cpp:253-259 | the references copied are those of the pages inside the range, in their old order |
| `CachePositions.CopiedPositions` | src/multisequence_cache.cpp:250-266 | a copy holds exactly the pages, and the tail, that lie inside the range, so nothing outside it |
| `CachePositions.CopyCompleteExactly` | src/multisequence_cache.cpp:250-266 | a copy holds all of the range that its source holds exactly when the range splits neither a page nor the tail |
| `CachePositions.ShiftedPositions` | src/multisequence_cache.cpp:368-388 | a shifted layer has the same pages with every position in the range moved and every other not; the same of the tail exactly when the range does not split it |
| `CachePositions.MovesExactly` | src/multisequence_cache.cpp:368-386 | a layer can be shifted exactly when the range splits no page, no position would become negative, and the positions increase afterwards |
| `CachePositions.SplitTailStays` | src/multisequence_cache.cpp:380-384 | a shift of [4,20) by 5 leaves a tail of positions 0 to 9 where it is, and succeeds |
| `SequenceCache.Cache.constructor` | src/multisequence_cache.cpp:190-199 | an empty cache balances |
| `SequenceCache.Cache.AcquirePage` | src/multisequence_cache.cpp:105-113 | one more reference, or refused for an unknown, retired or saturated page |
| `SequenceCache.Cache.ReleasePage` | src/multisequence_cache.cpp:115-131 | one reference fewer; the last one retires the page, queues it and adds its size to the pending bytes |
| `SequenceCache.Cache.Audit` | src/multisequence_cache.cpp:152-177 | passes exactly when every reference resolves to a live page, every live count is the number of references, no retired page is referenced and every layer is in order |
| `SequenceCache.Cache.AuditOfValid` | src/multisequence_cache.cpp:152-177 | on balanced books only page order can fail the audit |
| `SequenceCache.Cache.MaybeAudit` | src/multisequence_cache.cpp:179-186 | reports a failure exactly when auditing is on and some layer is out of order |
| `SequenceCache.Cache.Create` | src/multisequence_cache.cpp:214-233 | adds an empty sequence; the books stay balanced |
| `SequenceCache.Cache.AcquireCopy` | src/multisequence_cache.cpp:251-274 | references for all pages of the range, or, when some count would overflow, every count as it was |
| `SequenceCache.Cache.Copy` | src/multisequence_cache.cpp:235-292 | fails exactly on bad arguments, an unknown source or an overflowing count, and then changes nothing; otherwise the destination is the copied range and the books balance |
| `SequenceCache.Cache.RemoveFromLayer` | src/multisequence_cache.cpp:316-344 | removes the range from one layer, or says which pages were released and are still referred to |
| `SequenceCache.Cache.Remove` | src/multisequence_cache.cpp:294-355 | removes a range or a whole sequence; a stuck removal leaves exactly the state given, and the books still balance if and only if it lost no page |
| `SequenceCache.Cache.Shift` | src/multisequence_cache.cpp:357-400 | takes effect exactly when every layer can move; otherwise the layers before are shifted and the first that cannot move is left as it stood when it failed; no page changes hands either way |
| `SequenceCache.Cache.Append` | src/multisequence_cache.cpp:402-435 | the appended layer in 32-bit arithmetic, or the first failing check; the books balance |
| `SequenceCache.Cache.SpeculationBegin` | src/multisequence_cache.cpp:465-483 | a fresh ticket and the longest tail as baseline, unless a speculation is active |
| `SequenceCache.Cache.SpeculationCommit` | src/multisequence_cache.cpp:485-515 | takes effect exactly when every layer has the accepted tokens beyond the baseline; else the layers before the first that has not are already cut |
| `SequenceCache.Cache.SpeculationRollback` | src/multisequence_cache.cpp:517-542 | sets every tail to the baseline and the generation back |
| `SequenceCache.Cache.Reclaim` | src/multisequence_cache.cpp:544-565 | never fails on balanced books: queue and pending bytes end empty, exactly the live pages stay |
| `CacheRuns.Perform` | src/multisequence_cache.cpp:214-565 | every call changes the sequences by one of the operations, complete or stuck, or not at all |
| `CacheRuns.TailsStayWithin` | src/multisequence_cache.cpp:402-542 | over every operation no tail, and no baseline of a speculation, outgrows a page |
| `Speculations.AppendAddsTokens` | src/multisequence_cache.cpp:419-425 | an accepted append extends the tail by its positions if and only if the 32-bit count does not wrap |
| `Speculations.AppendAccepted` | src/multisequence_cache.cpp:419-422 | an append is accepted exactly when it goes on from the last position of the tail, if there is one, and the 32-bit number of all positions is at most a page |
| `Speculations.AppendCanWrap` | src/multisequence_cache.cpp:421-424 | 5 tokens and 2^32 - 2 more are accepted as 3 |
| `Speculations.RunHolding` | src/multisequence_cache.cpp:402-435 | after any run of accepted appends, wrapping ones included, a layer counts what it was given modulo 2^32, its positions follow one another, and its pages are untouched |
| `Speculations.RunAddsTokens` | src/multisequence_cache.cpp:402-435 | after any run of accepted appends a layer's tail is its old tail followed by the run's tokens for it, if and only if they number less than 2^32 |
| `Speculations.WrapMovesStart` | src/multisequence_cache.cpp:412-425 | 5 tokens and 2^32 - 5 more leave an empty tail, which 3 tokens at position 100 then begin anew |
| `Speculations.CommitSucceeds` | src/multisequence_cache.cpp:496-503 | after any run, commit(a) succeeds exactly when every layer, its token count taken modulo 2^32, has a tokens beyond the longest tail at the start |
| `Speculations.CommitKeepsAccepted` | src/multisequence_cache.cpp:465-515 | a successful commit(a) leaves every layer its old tail and exactly the first a new tokens, if and only if the tails were equally long at the start and, unless nothing is kept, every tail still begins where it did |
| `Speculations.RollbackRestores` | src/multisequence_cache.cpp:465-542 | a roll back restores every tail if and only if the tails were equally long at the start and, unless they were empty, every tail still begins where it did |
| `Speculations.ShortRunKeepsStarts` | src/multisequence_cache.cpp:402-435 | in a run that gives no layer 2^32 tokens every tail still begins where it did |
| `Speculations.RollbackInvents` | src/multisequence_cache.cpp:527-530 | with tails of 2 and 0 tokens, rolling back gives the second layer two tokens it never had |
| `Leases.Cluster.AcquireLease` | src/disaggregated_serving.cpp:119-127 | granted exactly when the page has no lease or its lease ran out; a new generation for the new owner |
| `Leases.Cluster.RenewLease` | src/disaggregated_serving.cpp:129-134 | extends exactly the current lease; anything else counts as stale |
| `Leases.Cluster.TransferLease` | src/disaggregated_serving.cpp:136-147 | hands exactly the current lease to another owner under the next generation, and rewrites the manifest's lease |
| `Leases.Cluster.PublishManifest` | src/disaggregated_serving.cpp:149-154 | stores a manifest exactly when it is complete and carries the current lease |
| `Leases.RunSound` | src/disaggregated_serving.cpp:119-154 | in every reachable state tokens are as granted and no published manifest is ahead of its page's generation |
| `Leases.GenerationStep` | src/disaggregated_serving.cpp:119-154 | a page's generation rises, by one, exactly on an accepted acquire or transfer of that page; otherwise owner and token stay |
| `Leases.GenerationMonotone` | src/disaggregated_serving.cpp:119-154 | over every run a page's generation never decreases |
| `Leases.OneOwnerPerGeneration` | src/disaggregated_serving.cpp:119-154 | over every run a generation of a page has one owner and one token for ever |
| `Leases.FencedForever` | src/disaggregated_serving.cpp:129-153 | a superseded lease is never again accepted by renew, transfer or publish |
| `Leases.HolderKeepsPage` | src/disaggregated_serving.cpp:119-147 | until its lease runs out the holder keeps the page and generation over every run in which the lease is not transferred; the expiry never moves back |
| `LeaseTimes.NotTakenEarly` | src/disaggregated_serving.cpp:119-147 | for a lease duration after an acquire, renewal or transfer, no acquire of that page is accepted, whatever is called in between |
| `LeaseTimes.FreeExactlyThen` | src/disaggregated_serving.cpp:119-147 | left alone, a page can be acquired exactly from a lease duration after the call that leased it |
| `LeaseTimes.HonouredExactly` | src/disaggregated_serving.cpp:129-154 | of all leases of a generation exactly the one granted is honoured, by renew, transfer and publish, and exactly until the page moves on |
| `LeaseTimes.ManifestStays` | src/disaggregated_serving.cpp:141-154 | a published manifest stays as published until the page is published or transferred again; a transfer changes nothing but its lease |
| `SchedulerModel.SelectWorker` | src/production_scheduler.cpp:132-149 | some eligible worker if there is one: the least score, ties by the least id |
| `SchedulerModel.BestUnique` | src/production_scheduler.cpp:134-149 | that worker is the same in whatever order the workers are visited |
| `SchedulerModel.CheapestWorker` | src/production_scheduler.cpp:132-149 | the worker chosen is the cheapest: a thousand for every sequence it has, and with a deadline the microseconds of prefill and decode; the tenant's fairness plays no part |
| `SchedulerModel.EstimatesAre` | src/production_scheduler.cpp:44-55 | both estimates are a million microseconds per token, the uncached ones for prefill, divided by the rate and rounded down |
| `SchedulerModel.FairnessExactly` | src/production_scheduler.cpp:57-63 | fairness exceeds x exactly when the tenant has used at least its weight times (1000 priority + x + 1) |
| `SchedulerModel.GpuTimeConserved` | src/production_scheduler.cpp:221-222 | the tenants' GPU time sums to the usage records, each counted once |
| `Schedulers.Scheduler.RegisterTenant` | src/production_scheduler.cpp:81-95 | adds an empty tenant exactly when the policy is complete and there is room |
| `Schedulers.Scheduler.RegisterWorker` | src/production_scheduler.cpp:97-109 | adds a worker exactly when it is complete and there is room |
| `Schedulers.Scheduler.Enter` | src/production_scheduler.cpp:164-186 | the books, the caps and the counters after one admitted or queued request |
| `Schedulers.Scheduler.Admit` | src/production_scheduler.cpp:111-198 | the verdict the quotas, the workers and the caps ask for; the queue position is the number then queued; rejections change nothing; all invariants are kept |
| `Schedulers.Scheduler.Complete` | src/production_scheduler.cpp:200-225 | charges a live request to its tenant exactly when its id was never charged before; all invariants are kept |
| `Schedulers.ReusedId` | src/production_scheduler.cpp:200-225 | a charged id is admitted again, and then its completion is refused |
| `Schedulers.Scheduler.Cancel` | src/production_scheduler.cpp:227-242 | drops a live request from its tenant's count, uncharged; all invariants are kept |
| `Schedulers.Scheduler.OpenCircuit` | src/production_scheduler.cpp:244-253 | quarantines a known worker |
| `Schedulers.Scheduler.RecoverCircuit` | src/production_scheduler.cpp:255-264 | heals exactly a worker whose circuit is open |
| `Schedulers.Scheduler.DrainWorker` | src/production_scheduler.cpp:287-298 | drains a known worker exactly when no live request sits on it |
| `Schedulers.Scheduler.ShutdownAudit` | src/production_scheduler.cpp:300-307 | clean exactly when everything admitted or queued was charged or cancelled |
| `Schedulers.Scheduler.GpuTimeBalances` | src/production_scheduler.cpp:200-225 | in every reachable state tenants' GPU time equals recorded GPU time |
| `SchedulerRuns.Perform` | src/production_scheduler.cpp:81-307 | every call leaves the state, and gives the reply, that a step of a run has |
| `SchedulerRuns.NothingPlaced` | src/production_scheduler.cpp:132-149 | from an opened circuit or a drain of a worker until its recovery no call puts a request on it |
| `SchedulerRuns.RefusedForModel` | src/production_scheduler.cpp:132-155 | with every worker sent away, every request in quota is refused for its model; with one at work that has the model, none is |
| `SchedulerRuns.BooksAddUp` | src/production_scheduler.cpp:183-222 | over every run a tenant's prompt tokens, promised tokens, completion tokens and GPU time are the sums of what its admitted requests asked for and its completed ones used |
| `SchedulerRuns.AdmittedBy` | src/production_scheduler.cpp:119-181 | over every run a request is refused for quota exactly when what its tenant has spent leaves no room; otherwise, unless refused for its model, the numbers of live requests decide between admitting, queueing and overload |
| `Blockwise.BlocksCover` | src/adaptive_compression.cpp:81 | every value gets a scale if and only if count + block size does not exceed 2^32 |
| `Blockwise.NoBlockLeft` | src/adaptive_compression.cpp:81 | three values in blocks of 2^32 - 1 get no scale at all |
| `Blockwise.BytesHold` | src/adaptive_compression.cpp:41-46 | every value gets a code if and only if the rounding up does not wrap |
| `Blockwise.BytesLeast` | src/adaptive_compression.cpp:41-46 | not a byte more than the codes need |
| `Blockwise.BlockOfIs` | src/adaptive_compression.cpp:141 | the index of a value's block is its index divided by the block size |
| `ByteCodes.PutCodeIs` | src/adaptive_compression.cpp:103-112 | or-ing a code into its clear place stores that code and changes no other |
| `ByteCodes.SignedCode` | src/adaptive_compression.cpp:131-140 | a value of the code's range survives masking and sign extension |
| `ByteCodes.SamePayload` | src/adaptive_compression.cpp:74-115 | payloads with the same codes are the same bytes |
| `Blockwise.PackBlock` | src/adaptive_compression.cpp:94-113 | every value of a block becomes its clamped rounded quotient; codes outside the block stay |
| `Blockwise.NearestCode` | src/adaptive_compression.cpp:103-112 | each value is given the code that comes back nearest to it |
| `Blockwise.Pack` | src/adaptive_compression.cpp:74-115 | a scale per block, a code per value the blocks reach, nothing in the other bits; all values are packed if and only if count + block size does not exceed 2^32 |
| `Blockwise.Unpack` | src/adaptive_compression.cpp:117-143 | each code, sign-extended, times the scale of its block |
| `Blockwise.ReadCoded` | src/adaptive_compression.cpp:131-140 | unpacking reads back exactly the codes that were packed |
| `Blockwise.ErrorBound` | src/adaptive_compression.cpp:74-143 | every unpacked value is within half the scale of its block of the original |
| `Blockwise.PageError` | src/adaptive_compression.cpp:74-143 | over a page the error is at most the greatest magnitude over twice the greatest code |
| `Recompression.BlockMagnitude` | src/adaptive_compression.cpp:84-92 | the greatest magnitude of a block survives packing and unpacking |
| `Recompression.RepackSame` | src/adaptive_compression.cpp:74-143 | packing an unpacked page with the same codec and block size gives the same payload and scales |
| `AdaptiveCompression.Choose` | src/adaptive_compression.cpp:48-72 | the narrowest codec within the bit range and the error budget, or the raw one |
| `AdaptiveCompression.RefusedExactly` | src/adaptive_compression.cpp:58-68 | a codec is refused for its error exactly from 2 qmax + 1 times the budget on |
| `AdaptiveCompression.ChosenExactly` | src/adaptive_compression.cpp:48-72 | with every width allowed: two bits up to 3 budgets, four up to 15, eight up to 255, raw beyond |
| `AdaptiveCompression.RawNearest` | src/adaptive_compression.cpp:96-101 | a raw code is the nearest 16-bit integer |
| `AdaptiveCompression.EncodeStream` | src/adaptive_compression.cpp:145-162 | the stream holds what its blocks reach under the given codec: the whole input if count + block size does not exceed 2^32, and under an integer codec only then |
| `AdaptiveCompression.DecodeStream` | src/adaptive_compression.cpp:253-263 | the values the stream stands for |
| `AdaptiveCompression.Runtime.Encode` | src/adaptive_compression.cpp:207-251 | keys and values each under the codec their magnitudes call for; refuses an empty page; counts two pages |
| `AdaptiveCompression.Runtime.Recompress` | src/adaptive_compression.cpp:265-284 | decodes and encodes again under the narrowed range; the configuration is as it was |
| `AdaptiveCompression.WithinBudget` | src/adaptive_compression.cpp:207-251 | a value encoded under the budget comes back to within (2q+1)/2q, hence 3/2, of the budget; a raw value in range to within 1/2 |
| `BudgetThreshold.SafeExactly` | src/adaptive_compression.cpp:74-143 | under an integer codec every page of a given greatest magnitude comes back within the budget if and only if that magnitude is at most 2 qmax times the budget, or every value has its own block |
| `BudgetThreshold.SingletonsExact` | src/adaptive_compression.cpp:74-143 | with one value to a block every value comes back as it was |
| `AdaptiveCompression.BudgetExceeded` | src/adaptive_compression.cpp:201 | a page and budget for which the codec chosen errs by half more than the budget |
| `AdaptiveCompression.NarrowedChoice` | src/adaptive_compression.cpp:276-280 | recompression reaches the codec asked for exactly when the page fits the budget under it; otherwise it gives the raw form |
| `AdaptiveCompression.RecompressedRaw` | src/adaptive_compression.cpp:276-280 | a page of one value 1 under a budget of 1/100, asked for four bits, is given the raw form |
| `AdaptiveCompression.RecompressSame` | src/adaptive_compression.cpp:265-284 | recompressing to the same codec reproduces the stream if and only if its magnitudes fit the budget under that codec |
| `AdaptiveCompression.ChosenIsFixed` | src/adaptive_compression.cpp:265-284 | a stream chosen under the budget is always reproduced |
| `SymbolStreams.PutSymbol` | src/runtime/kv_gpu_fixture.cpp:37-40 | or-ing a symbol into its clear place stores it and changes no other |
| `SymbolStreams.EncodeSymbols` | src/runtime/kv_gpu_fixture.cpp:20-43 | refuses exactly an empty stream, block size 0 or a width other than 4 and 8; otherwise the low bits of every symbol, in order, and every block's bit offset |
| `SymbolStreams.DecodeSymbols` | src/runtime/kv_gpu_fixture.cpp:105-118 | refuses exactly a bad codebook or a stream too short; otherwise the symbols |
| `SymbolStreams.RoundTrip` | src/runtime/kv_gpu_fixture.cpp:20-43 | every symbol is read back modulo 2^bits, so exactly when it fits |
| `SymbolStreams.StreamBits` | src/runtime/kv_gpu_fixture.cpp:30-41 | read from the most significant bit of each word down, the words are the symbols one after another, each from its most significant bit down, and zeros behind the end |
| `SymbolStreams.BlockBegins` | src/runtime/kv_gpu_fixture.cpp:33-41 | every bit of every symbol of a block stands where the block's offset says, below bit 2^31 |
| `SymbolStreams.BlockOffset` | src/runtime/kv_gpu_fixture.cpp:33-36 | there is an offset for exactly each block, and it is the position of the block's first symbol if and only if that is below bit 2^31 |
| `SymbolStreams.BlockOffsetWraps` | src/runtime/kv_gpu_fixture.cpp:33-36 | the second block of 2^29 four-bit symbols is recorded at -2^31 |
| `FixturePages.EncodePage` | src/runtime/kv_gpu_fixture.cpp:46-95 | a page exactly for a valid shape, with that shape, place and zero point; its streams are those of as many symbols as there are values, and every entry decodes from its stream to what the page says, within half of its channel's or token's scale |

## Left out

- Standard library sorting: modelled by its contract, a sorted rearrangement, with a simple sort behind it
  (`SuffixArray.Sort`, `SelfCheck.SortValues`).
- The narrowing casts of the index: `Bits.Int32` wraps, and `SelfCheck.Fits` bounds the sizes so that no cumulative
  count or bit position does, and the alphabet to the 2^30 symbols up to which the builder gets past its bit loop.
- File formats, timing, random streams and printing of the index builder, its size and entropy figures, and the golden
  rank values it writes but does not check.
- IEEE rounding, NaN and infinities; the -infinity of a fresh accumulator is the flag that it has not started, and the
  checks for finite numbers hold of every real.
- Null pointers: a pointer that may be missing is a flag where a check counts it, elsewhere arguments are present.
- Mutexes: each call is one atomic step. Error strings, and counters no property mentions.
- Outputs the source writes into caller buffers are returned as sequences; vectors that are only filled and handed on
  are sequences, those updated in place are arrays or fields.
- The cache: tensor views and their topology checks (an append is given its token count), the attention entry point,
  which always refuses, destruction, and 64-bit wrap-around of ids and generations. Nothing in the source publishes a
  sealed page, so every operation is proved from every balanced state.
- The cluster runtime: request routing, transfers, worker failure and the mixing of lease tokens, which are any
  function of page, owner and generation; 64-bit wrap-around of generations and times.
- Creation's refusal of empty configurations, for the cache, the cluster runtime and the scheduler.
- The scheduler: scaling plans, the SLO class and idempotency key, which no decision reads, and wrap-around of its
  64-bit totals. The score of a worker wraps as in the source.
- The raw page form keeps its 16-bit integers as numbers, not bytes; checksums and saved bytes are not modelled.
- The codebook of a symbol stream is only its size; word indices beyond 2^32 are not modelled.
- Blockwise.Pack: the few counts just below 2^32 for which the rounding of the payload's size wraps, where the source
  writes behind its buffer (`Blockwise.PayloadFits`; `Blockwise.BytesHold` says which); with it
  `AdaptiveCompression.EncodeStream` and the runtime around it.
- CUDA kernels and everything behind them, the persistent page store, the Python tools, and the gates, bridges and
  forwarding layers.
