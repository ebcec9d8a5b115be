# MemVanta in Dafny

A model of the CPU LLM runtime MemVanta and proofs about it: batched causal prefill over the paged key/value cache, the
SentencePiece and GPT-2 tokenizers, the streaming runtime with its prefetch thread, the worker pool, the GGUF container
and the block quantizers. Loops and updated objects of the C++ code are methods and classes here; each is proved against
a function of its inputs or its old state, and the lemmas are about those functions. Floats are exact reals, machine
integers are unbounded with every check, truncation and wrap-around of the code written out, and an exception is an
`Err` value (or a named outcome). Concurrency is a step relation in which every critical section is one step.

| file | what it models |
|---|---|
| `Common.dfy`, `Arithmetic.dfy`, `RealMath.dfy` | result types, machine limits, quotients and remainders, exact arithmetic and error bounds of sums of products |
| `BatchInterchange.dfy` | the loop interchange for any stack of layers that write first and read causally |
| `BatchKernels.dfy`, `Prefill.dfy`, `Llama.dfy`, `PrefillMeaning.dfy` | batched matrix products, attention over the cache, `forward_batch_impl`, `prefill`, and the sums and products that they come to |
| `PagedKV.dfy` | the paged cache in its three formats, as a refinement of a map |
| `ByteStrings.dfy`, `ByteUnicode.dfy`, `Tokenizer.dfy` | UTF-8 units, replacement, the byte/Unicode bijection, the tokenizer's tables |
| `SentencePieceMerge.dfy`, `SentencePiece.dfy`, `SentencePieceMeaning.dfy`, `SpelledByte.dfy` | the SentencePiece encoder, its round trip, what it computes in plain terms, and a vocabulary and a text that is lost |
| `Pretokenizer.dfy`, `Gpt2.dfy`, `Gpt2Meaning.dfy`, `AlteredSpecial.dfy` | the same for the GPT-2 encoder |
| `LruCache.dfy`, `TensorStore.dfy`, `PrefetchPolicy.dfy`, `Prefetcher.dfy`, `PrefetchHistory.dfy`, `StreamBooks.dfy`, `Runtime.dfy` | the streaming runtime: cache, slices, depth controller, prefetch thread and its history, the consumer's books, the stream |
| `WorkerPool.dfy`, `PoolHistory.dfy` | the generation protocol of `parallel_for`, and the history of its calls |
| `Gguf.dfy`, `GgufReader.dfy`, `GgufAccepted.dfy`, `GgufExact.dfy`, `GgufScalars.dfy`, `GgufWriter.dfy` | the GGUF parser, its reader object, what acceptance guarantees and what exactly is refused, every value type, and the two fixture writers |
| `Quant.dfy` | the Q8_0 and Q4_0 quantizers and their dot products |

## Where the code and its description part

- A SentencePiece text that contains U+2581 does not survive encode and decode (`SentencePiece.MarkerTextIsLost`), nor does
  one whose segmentation uses a piece that spells a byte (`SpelledByte.SpelledByteIsLost` gives the vocabulary and the
  text `<0x41>`); `SentencePiece.RoundTrip` says exactly which texts survive.
- A GPT-2 special token that byte decoding alters is lost (`Gpt2.AlteredSpecialIsLost`; `AlteredSpecial.AccentedIsLost`
  gives a vocabulary); `Gpt2.RoundTrip` says exactly when.
- Prefill results agree for two batch sizes exactly when both or neither let their first chunk into the workspace limit
  (`Prefill.BatchSizeDoesNotMatter`). A prompt that overruns the context or holds a bad token is processed up to the
  refused chunk, so there two batch sizes agree exactly when they process as much and stop alike (`Prefill.SizesAgree`).
- `parallel_for` runs nothing at all when `n + threads - 1` reaches 2^64 (`WorkerPool.ChunksPartition`).
- `TensorStore::count()` truncates to 32 bits, so the stream covers all slices exactly when there are fewer than 2^32.
- The fixture writer with tensors rounds the data start to 32 whatever alignment the metadata declares; parsing restores the file
  exactly when rounding the header to the declared alignment gives the same start (`GgufWriter.ParseUndoesWrite`,
  with a concrete loss in `GgufWriter.DeclaredAlignmentIsLost`). A file of metadata alone comes back exactly when the
  declared alignment is a power of two and rounding its size up does not leave 64 bits (`GgufWriter.MetadataComesBack`).

## Model

| member | source | states |
|---|---|---|
| BatchInterchange.BatchSplit | src/llama_model.cpp:1019-1076 | For any stack of layers whose rows ignore later positions, the stores and rows of one batch over xs ++ ys are those of a batch over xs followed by a batch over ys. |
| BatchInterchange.EarlierRow | src/llama_model.cpp:1026-1055 | Writing any number of rows at later positions does not change a row computed at an earlier one. |
| BatchKernels.MatmulBatch | src/gguf_kernels.cpp:945-1022 | Grouped by eight or four with a tail, or one job per element: each batch row gets exactly the product it would get alone. |
| BatchKernels.JobProduct | src/gguf_kernels.cpp:890-943 | The job index split by quotient and remainder fills every element of the output, each with its own row's product. |
| BatchKernels.JobPlace | src/gguf_kernels.cpp:904-906 | Job j is batch row b and weight row r if and only if b is its quotient and r its remainder. |
| Prefill.AttRowCausal | src/llama_model.cpp:1030-1055 | Two caches that read alike up to a position give the same attention output there, whatever later positions hold. |
| Prefill.WriteRowReady | src/llama_model.cpp:1026-1029 | Inside the context a key/value write succeeds, extends the readable prefix by one and leaves every earlier position readable as before. |
| Prefill.LayerIsCausal | src/llama_model.cpp:1019-1076 | A transformer layer meets the causality conditions that justify writing a whole chunk before attention. |
| Prefill.BatchConcat | src/llama_model.cpp:952-1089 | One batch over a ++ b leaves the caches, position and logits of a batch over a, then one over b. |
| Prefill.PrefillIsOneBatch | src/llama_model.cpp:1145-1156 | For in-range tokens that fit the context and a first chunk that fits the workspace, prefill with any batch size ends where one batch over the whole prompt would. |
| Prefill.BatchSizeDoesNotMatter | src/llama_model.cpp:1145-1156 | Two batch sizes give the same caches, position, logits and outcome if and only if both or neither let the first chunk into the workspace. |
| Prefill.PrefillEndsAt | src/llama_model.cpp:1145-1156 | For any prompt, batch size and workspace: prefill ends in the result of one batch over the chunks before the first refused one, with that refusal as outcome. |
| Prefill.CommittedIsWholeChunks | src/llama_model.cpp:1145-1156 | How much that is: all of a prompt whose tokens are all usable, else the whole chunks inside its longest prefix that fits the context and the vocabulary. |
| Prefill.SizesAgree | src/llama_model.cpp:1145-1156 | For any prompt two batch sizes give the same result if and only if they process as much and stop for the same reason. |
| Prefill.TooBigChangesNothing | src/llama_model.cpp:963-978 | A first chunk over the workspace limit is refused with the model unchanged. |
| PrefillMeaning.AttentionElement | src/llama_model.cpp:1030-1055 | Element d of head h is the weighted sum, over the positions up to its own, of element kh * headDim + d of the stored values, where kh * group <= h < (kh + 1) * group; each weight comes from the scaled dot products of the query's slice h with the keys from kh * headDim on. |
| PrefillMeaning.EveryHeadHasGroup | src/llama_model.cpp:1035 | Every query head lies in exactly one of the nHeadKv consecutive groups of equal size, in order. |
| PrefillMeaning.GroupSlice | src/llama_model.cpp:1035-1036 | The heads of a group read one and the same slice, that of their key/value head. |
| PrefillMeaning.StoredRowIs | src/llama_model.cpp:1003-1029 | What a row stores: the products of the normalised row with the key and value weights, the key rotated for its position. |
| PrefillMeaning.LayerRowIs | src/llama_model.cpp:1003-1076 | What a layer returns: attention over the rotated query, projected and added; then the gated feed-forward of the normalised sum, added again. |
| PrefillMeaning.OneTokenIs | src/llama_model.cpp:952-1089 | One token: its embedding passes the layers in order, each writing before it attends, and the normalised last row gives the logits. |
| PrefillMeaning.BatchIsTokenByToken | src/llama_model.cpp:952-1089 | A batch of any size does what its tokens do one after the other; only the last computes logits. |
| PrefillMeaning.WorkspaceIs | src/llama_model.cpp:963-978 | The workspace is four bytes for each element of six model-wide, two key-wide and three inner-wide rows per token. |
| Llama.BufferBytes | src/llama_model.cpp:965-976 | The checked additions and products give the exact workspace size, or fail exactly when it leaves 64 bits. |
| Llama.AttendRow | src/llama_model.cpp:1031-1055 | Accumulating head by head into a zeroed row, through the cache's reads, gives the attention output of all heads side by side; `PrefillMeaning.AttentionElement` says what each element is. |
| Llama.RunLayer | src/llama_model.cpp:1019-1076 | One layer's loops store the whole chunk and return the layer's rows; `PrefillMeaning.LayerRowIs` says what a row is. |
| Llama.LlamaModel.ForwardBatch | src/llama_model.cpp:952-1089 | A refused batch (context, token range, workspace, in that order) changes nothing; an accepted one leaves exactly the batch result. |
| Llama.LlamaModel.PrefillTokens | src/llama_model.cpp:1145-1156 | The chunk loop ends in the state and outcome of the chunked specification, stopping at the first refused chunk. |
| Llama.LlamaModel.PrefillInOneGo | src/llama_model.cpp:1145-1156 | On the object itself: any batch size whose first chunk fits leaves the model as one whole batch would, any other leaves it unchanged. |
| PagedKV.WriteView | src/llama_model.cpp:184-218 | After a successful write its position reads as the stored row and every other position as before, zeros if its page was just allocated. |
| PagedKV.RunRefines | src/llama_model.cpp:169-218 | For any page size and any sequence of writes and resets the cache refines a map from position to last written key and value. |
| Arithmetic.PageRowAreDivMod | src/llama_model.cpp:187 | The page and row walk used in the proofs is the quotient and remainder of the code. |
| PagedKV.KeyReadError | src/llama_model.cpp:219-278 | After any run in Q8 mode, a key read is within (max of the key's magnitudes / 254) times the sum of query magnitudes of the exact dot product with the last written key. |
| PagedKV.DotKeyError | src/llama_model.cpp:203-215 | The same bound for one stored row. |
| PagedKV.AddValueError | src/llama_model.cpp:315-330 | In Q8 mode every accumulated element is within abs(alpha) times (max value magnitude / 254) of the exact one. |
| PagedKV.ValueReadError | src/llama_model.cpp:279-331 | The same over runs: after any sequence of writes and resets in Q8 mode, accumulating a position's value is that close to using its last written value. |
| PagedKV.StoredNear | src/llama_model.cpp:203-215 | Every Q8 value read back is within half a step of the written one; the clamp never acts. |
| RealMath.RoundAwayIs | src/llama_model.cpp:203-215 | Cache codes are nearest integers, of two equally near the one farther from zero. |
| PagedKV.PagedKVCache.Write | src/llama_model.cpp:184-218 | The write in each storage format, in place, is the write of the specification, errors included. |
| PagedKV.PagedKVCache.DotKey | src/llama_model.cpp:219-278 | The three read loops give the dot product of the query with the decoded row, or the bounds or missing-page error. |
| PagedKV.PagedKVCache.AddValue | src/llama_model.cpp:279-331 | The output slice gains alpha times the decoded values; the rest of the output array and, on error, all of it, is untouched. |
| PagedKV.PagedKVCache.Ensure | src/llama_model.cpp:174-183 | Allocates the page once, growing the page table, or fails on an index or size that leaves 64 bits. |
| ByteStrings.ReplaceAll | src/llama_model.cpp:124-131 | The find-and-splice loop is left-to-right replacement of every occurrence. |
| ByteStrings.UnitOfCodePoint | src/llama_model.cpp:84-110 | Wherever the UTF-8 form of a code point stands, it is read as one unit with that code point and that length. |
| ByteStrings.UnitLengthIs | src/llama_model.cpp:84-110 | A unit has two, three or four bytes exactly when its lead byte says so and that many continuation bytes follow; otherwise the byte stands alone. |
| ByteStrings.UnmarkMark | src/llama_model.cpp:662-668 | Turning spaces into U+2581 and back does to a text exactly what turning back alone does: only its own U+2581 change, into spaces. |
| ByteStrings.UnmarkConcat | src/llama_model.cpp:773-781 | Replacing piece by piece equals replacing in the joined text when no marker straddles the cut. |
| ByteStrings.MarkerInsideUnit | src/llama_model.cpp:84-110 | A marker that starts before a unit boundary ends at or before it, malformed bytes included: no boundary cuts a marker. |
| ByteUnicode.MakeByteUnicode | src/llama_model.cpp:45-79 | The table-building loops give every byte its atom. |
| ByteUnicode.TableIs | src/llama_model.cpp:45-79 | The table itself: printable bytes keep their code, the 68 others follow from U+0100 upwards in order. |
| ByteUnicode.Utf8Is | src/llama_model.cpp:45-79 | The atoms are the UTF-8 forms of the table's code points. |
| ByteUnicode.AtomInjective | src/llama_model.cpp:45-79 | Different bytes have different atoms. |
| ByteUnicode.DecodeEncode | src/llama_model.cpp:382-409 | Every byte string survives the byte/Unicode spelling. |
| ByteUnicode.DecodeBytesLoop | src/llama_model.cpp:389-409 | The reverse-table loop over units is the decoding function. |
| Tokenizer.Build | src/llama_model.cpp:411-474 | The constructor's tables: last id per token, specials longest first, all tokens longest first, the last byte token of each byte, atom completeness, and merge ranks: every merge with a space is ranked, the last of equal ones winning. |
| Tokenizer.KindsAre | src/llama_model.cpp:439-449 | Special tokens are those of type 3 or 4; byte tokens are those of type 6 that read `<0x..>`. |
| Tokenizer.PieceIs | src/llama_model.cpp:761-773 | A control token comes out verbatim, a byte token as its byte, any other with spaces for markers. |
| Tokenizer.Decode | src/llama_model.cpp:757-784 | The decode loop is the concatenation of decoded pieces with one leading space stripped when a prefix was added. |
| SentencePieceMerge.BestPairIsBest | src/llama_model.cpp:685-689 | The reference choice is the adjacent vocabulary pair of highest score, leftmost among equals, and none only if there is none. |
| SentencePieceMerge.LazyMerge | src/llama_model.cpp:690-722 | The lazy queue with stale entries leaves exactly the segmentation of the naive loop, for every order the queue gives to equal entries, and terminates. |
| SentencePieceMerge.FreshTopIsBest | src/llama_model.cpp:708-714 | A queue entry that passes the staleness test is the naive loop's next merge. |
| SentencePieceMerge.MergeTop | src/llama_model.cpp:715-721 | The index-linked update merges that pair and leaves a well-linked chain with every mergeable pair queued. |
| SentencePiece.Encode | src/llama_model.cpp:662-743 | The encoder's loops compute the specified ids, or fail exactly when a byte has neither a byte token nor an unknown id. |
| SentencePiece.MergeKeeps | src/llama_model.cpp:708-722 | Merging keeps segments tiling the text, aligned to units, each a single unit or a vocabulary piece. |
| SentencePieceMeaning.PrefixedIs | src/llama_model.cpp:665-668 | The marked text: U+2581 for every space and, if asked for, one in front. |
| SentencePieceMeaning.StartsAsUnits | src/llama_model.cpp:673-679 | Merging starts from one segment per UTF-8 unit. |
| SentencePieceMeaning.MergeTrace | src/llama_model.cpp:685-722 | The final segmentation is the end of a chain of merges, each of the highest-scoring leftmost pair, and no pair in it can be merged. |
| SentencePieceMeaning.PairScoreIs | src/llama_model.cpp:691-705 | A pair is scored by the text of its two segments put together. |
| SentencePieceMeaning.ScoreIs | src/llama_model.cpp:698-704 | A text is scored exactly if it is a token, with the score of the last token that reads so. |
| SentencePieceMeaning.FallbackIs | src/llama_model.cpp:731-740 | Byte fallback: one id per byte, its own token or else the unknown one; it fails exactly where there is neither. |
| SentencePieceMeaning.SegmentIs | src/llama_model.cpp:724-741 | A segment in the vocabulary gives the id of the last token that reads so, and only any other falls back to bytes. |
| SentencePieceMeaning.EncodeIs | src/llama_model.cpp:662-743 | From units over best merges to a segmentation: encoding returns the ids of its segments joined in order, and fails if one of them fails. |
| SentencePiece.RoundTrip | src/llama_model.cpp:662-784 | With all byte tokens and a plain marker piece, a byte string comes back if and only if it has no U+2581 and its segmentation uses no byte-spelling piece. |
| SentencePiece.RoundTripOfPlainText | src/llama_model.cpp:662-784 | A text without U+2581 and without a spelled byte token in its marked form comes back, malformed UTF-8 included. |
| SentencePiece.MarkerTextIsLost | src/llama_model.cpp:662-784 | U+2581 itself never comes back. |
| SpelledByte.SpelledByteIsLost | src/llama_model.cpp:690-784 | A concrete vocabulary that meets all conditions, and the text `<0x41>`, which merges into a byte piece and does not come back. |
| Pretokenizer.ChunksFlatten | src/llama_model.cpp:476-543 | The pre-tokenizer's chunks concatenate back to the text. |
| Pretokenizer.RunIsMaximal | src/llama_model.cpp:502-540 | A run ends at the first unit that is a space, changes kind or starts a contraction, and nowhere earlier. |
| Pretokenizer.Pretokenize | src/llama_model.cpp:476-543 | The scanning loops produce the specified chunks, and the text has positions that cut it into them, each piece one of the four kinds. |
| Pretokenizer.ChunkIs | src/llama_model.cpp:495-540 | A chunk is a contraction; or a maximal run of one kind, stopped by a contraction; or a space and a maximal run, not stopped by one; or spaces, and no lone 0x20 is cut off from the word behind it. |
| Pretokenizer.ChunksAre | src/llama_model.cpp:476-543 | The chunks cut the whole text into such pieces. |
| Pretokenizer.SpacesAre | src/llama_model.cpp:111-115 | Which code points are spaces. |
| Pretokenizer.KindsAre | src/llama_model.cpp:116-123 | Which code points are digits, letters and others. |
| Gpt2.BestMergeIsBest | src/llama_model.cpp:583-595 | The chosen merge has the lowest rank, leftmost among equals. |
| Gpt2.MergeByRank | src/llama_model.cpp:582-598 | The in-place merge loop is repeated merging of the lowest-ranked pair. |
| Gpt2.Encode | src/llama_model.cpp:545-660 | Both branches: the longest token again and again without byte atoms and merges; otherwise special splitting, pre-tokenizing, merging and atom fallback compute the specified ids. |
| Gpt2Meaning.BranchIs | src/llama_model.cpp:547-573 | The greedy branch is taken exactly if a byte atom is missing and no line of the merge list has a space. |
| Gpt2Meaning.SpecialIs | src/llama_model.cpp:621-638 | The special token taken at a position is a longest one that matches there, and none is taken only if none matches. |
| Gpt2Meaning.SpecialStepIs | src/llama_model.cpp:621-638 | Where a special token matches, its own id is emitted and its text is passed whole. |
| Gpt2Meaning.PlainRunIs | src/llama_model.cpp:639-656 | Text without a special token ends where the next one matches, not before and not after, and its chunks give its ids. |
| Gpt2Meaning.RankIs | src/llama_model.cpp:466-473 | Two neighbouring symbols can be merged exactly if the merge list has the line "left right", and their rank is its last place. |
| Gpt2Meaning.MergeTrace | src/llama_model.cpp:582-598 | The merged symbols end a chain of merges, each of the lowest rank and leftmost, and no pair of them is ranked. |
| Gpt2Meaning.StartsAsAtoms | src/llama_model.cpp:574-581 | A chunk starts as one atom per byte. |
| Gpt2Meaning.SymbolIs | src/llama_model.cpp:599-604 | A symbol in the vocabulary gives the id of the last token that reads so, and only any other falls back to its atoms. |
| Gpt2Meaning.FallbackIs | src/llama_model.cpp:605-617 | Atom fallback: one id per unit, its own token or else the unknown one; it fails exactly where there is neither. |
| Gpt2Meaning.LongestIs | src/llama_model.cpp:549-559 | The greedy branch takes a longest token that matches, and none only if none matches. |
| Gpt2Meaning.GreedySpells | src/llama_model.cpp:547-573 | Without an unknown token greedy ids spell the text or encoding fails where no token matches; with one it never fails. |
| Gpt2Meaning.GreedyNeedsBytes | src/llama_model.cpp:547-573 | If every byte is a token, greedy encoding never fails and its tokens spell the text. |
| Gpt2.RoundTrip | src/llama_model.cpp:545-660 | With all byte atoms, a byte string comes back if and only if no special token that byte decoding alters is cut out of it. |
| Gpt2.RoundTripWithAsciiSpecials | src/llama_model.cpp:545-660 | With ASCII special tokens every byte string comes back. |
| Gpt2.AlteredSpecialIsLost | src/llama_model.cpp:620-638 | A special token that byte decoding alters does not come back as a text of its own. |
| AlteredSpecial.AccentedIsLost | src/llama_model.cpp:620-638 | A concrete vocabulary with all 256 atoms and an accented special token, whose own text does not come back. |
| LruCache.TensorCache.GetOrLoad | src/lru_cache.cpp:27-62 | Hit, miss, eviction, the three errors and all counters, in place. |
| LruCache.TensorCache.EvictFor | src/lru_cache.cpp:12-25 | The eviction loop drops from the back until the incoming bytes fit. |
| LruCache.TensorCache.InsertPrefetched | src/lru_cache.cpp:69-87 | A resident or oversized id is ignored without touching recency; otherwise evict, copy and count. |
| LruCache.RunResident | src/lru_cache.cpp:12-87 | After any run of uses and prefetches the resident list is the longest prefix of the recency order that fits the capacity, and every entry equals its slice. |
| LruCache.FitIsLongest | src/lru_cache.cpp:12-25 | That prefix fits, and no longer prefix does. |
| LruCache.LargerCacheHitsMore | src/lru_cache.cpp:27-62 | For loads that fit the smaller cache, a larger cache holds at least what a smaller one holds and has at least as many hits; hits and misses add up to the loads. |
| LruCache.StatsAddUp | src/lru_cache.cpp:12-87 | After any run: evictions plus residents are the insertions, the bytes copied are theirs, hits and misses are the uses of resident and absent slices, and the peak is the most that was ever prefetched and unused. |
| LruCache.LoadOutcome | src/lru_cache.cpp:27-62 | Exactly when a load fails, and that otherwise the slice is in front with the returned bytes. |
| LruCache.PrefetchOutcome | src/lru_cache.cpp:69-87 | Exactly when a prefetched insertion is ignored or refused, and that otherwise the slice is in front, marked. |
| TensorStore.TensorStore.constructor | src/tensor_store.cpp:6-17 | The cutting loop tiles the file with nonempty slices, full-sized except at the end, numbered by a 32-bit counter. |
| TensorStore.Open | src/tensor_store.cpp:6-9 | A chunk size of zero is refused; any other opens a valid store over the file. |
| TensorStore.SlicesJoin | src/tensor_store.cpp:6-17 | The slices joined are the file. |
| TensorStore.TensorStore.Count | include/memvanta/tensor_store.hpp:17 | The 32-bit count is the number of slices if and only if there are fewer than 2^32. |
| PrefetchPolicy.AdaptivePrefetchController.Observe | src/prefetch_policy.cpp:23-127 | An unusable latency is refused with no change; otherwise one step of the controller. |
| PrefetchPolicy.DepthLedger | src/prefetch_policy.cpp:9-127 | Over every run the depth stays between its bounds, equals the initial depth plus ups minus downs, and a running probe is one step above where it started. |
| PrefetchPolicy.UpExactly | src/prefetch_policy.cpp:33-122 | The depth goes up exactly for a calm, well-used, steady window with late requests and headroom, after another stable one, and not from a blocked depth. |
| PrefetchPolicy.DownExactly | src/prefetch_policy.cpp:33-90 | It goes down exactly for a probe under pressure or more than half a percent slower, or otherwise under pressure or more than five percent slower. |
| PrefetchPolicy.BlockedExactly | src/prefetch_policy.cpp:52-110 | Exactly which windows set and lift the block on a rejected step. |
| PrefetchPolicy.ProbeVerdict | src/prefetch_policy.cpp:52-122 | A step deeper is kept or taken back by the next window, measured against the one that started it. |
| PrefetchPolicy.ReferenceIs | src/prefetch_policy.cpp:52-127 | The reference for the next window is this window's latency, or after a rejected probe that of the window before it. |
| PrefetchPolicy.UpNeedsTwoStable | src/prefetch_policy.cpp:91-122 | An increase needs two stable windows in a row. |
| PrefetchPolicy.RestIsCovered | src/prefetch_policy.cpp:91-122 | The cooldown never delays an increase by itself: in every run it ends before two stable windows can have passed. |
| PrefetchPolicy.UpsAreSpaced | src/prefetch_policy.cpp:52-122 | Two increases are at least three observations apart. |
| PrefetchPolicy.RejectedProbeHolds | src/prefetch_policy.cpp:52-121 | After a rejected probe from depth d with reference r, no step up from d happens before an observation at depth d exceeds 1.05 r or a probe from another depth is rejected. |
| Prefetcher.PendingIsQueueAndHeld | src/prefetcher.cpp:29-131 | In every reachable state the pending ids are the queued ones and at most one in the worker's hands, each once, and pending bytes is their sum. |
| Prefetcher.NoLostWakeup | src/prefetcher.cpp:67-103 | A worker asleep on a true condition is about to be notified. |
| Prefetcher.QuietMeansDone | src/prefetcher.cpp:29-112 | When no client is in a call and the worker sleeps, nothing is queued or pending. |
| Prefetcher.StoppedIsEmpty | src/prefetcher.cpp:67-89 | Once stop has returned the worker has exited and queue and pending set are empty, for good. |
| Prefetcher.JoinIsNotStuck | src/prefetcher.cpp:67-103 | A stop waiting to join always has a worker step, or a pending notification, that brings the worker closer to its exit. |
| Prefetcher.PrefetchState.Request | src/prefetcher.cpp:35-49 | The locked part of a request: skipped after stop or when pending, refused on overflow, otherwise queued and counted. |
| PrefetchHistory.EveryRequestIsAnswered | src/prefetcher.cpp:19-65 | The requests of a client, in order, are those that were answered and at most one still open; each answer has its reason: failed, stopped, out of range, cached, pending, too large, or accepted. |
| PrefetchHistory.CopiedInOrder | src/prefetcher.cpp:35-131 | Accepted slices are copied once, in the order of acceptance: what was ended, held and queued is all that was accepted, or its first part after a failure or a stop. |
| PrefetchHistory.QuietMeansCopied | src/prefetcher.cpp:91-131 | With nobody in a call and the worker asleep, every accepted slice has been copied. |
| PrefetchHistory.PeakIsMost | src/prefetcher.cpp:44-65 | The reported peak is the most bytes that were ever pending. |
| PrefetchHistory.FailsExactly | src/prefetcher.cpp:104-129 | The prefetcher fails, for good, exactly if one of its copies failed. |
| PrefetchHistory.EveryStopIsCounted | src/prefetcher.cpp:67-89 | Every stop that was begun has returned or is under way. |
| PrefetchHistory.StopIsFinal | src/prefetcher.cpp:67-89 | After any stop has returned the worker is gone and nothing is queued or pending. |
| Runtime.Runtime.RunStream | src/runtime.cpp:51-268 | For every interleaving: a completed run has the checksum of the plain fold over the slices once per pass, every byte of the file counted once per pass, a balanced ledger, at most passes * (count - 1) requests, one hit or miss per item with a copy cache, reservations and pending bytes within a finite limit, and an empty prefetcher. In mmap mode nothing is late, and with a depth of at least one and no limit, or one that covers what a look-ahead can ask for at once, requests = useful = passes * (count - 1). With an adaptive depth a window is closed after each full window of items. Without failures and oversized slices it completes. |
| Runtime.Runtime.LookAhead | src/runtime.cpp:146-189 | Each of the next `depth` slices of the file is known (requested, or seen resident or late and pending), taken, or skipped, and no other slice is: taken or skipped by whether it fits on top of what was reserved when its turn came. The books change by exactly that, eligible counts taken and skipped, and with a copy cache what is taken is handed to the prefetcher. |
| Runtime.Runtime.LookOne | src/runtime.cpp:156-188 | One candidate: requested, skipped for budget or passed over, each exactly when its condition holds, with the running reservation still bounding what is pending. |
| Runtime.Runtime.Settle | src/runtime.cpp:122-145 | Reaching a requested slice counts it useful or late by what was seen of it, remembers it while its copy is still in flight, and takes exactly its bytes out of flight. |
| Runtime.Runtime.EraseFinished | src/runtime.cpp:111-120 | Late requests are dropped exactly when they are seen to be no longer pending. |
| Runtime.Runtime.Request | src/prefetcher.cpp:29-65 | A request that returns has been queued, now or before, or the slice was seen resident, or the prefetcher has stopped. |
| Runtime.Runtime.WorkerStep | src/prefetcher.cpp:91-131 | Each worker step is the step of the prefetcher's protocol, and a successful copy does to the cache exactly what inserting the slice's bytes does. |
| Runtime.Runtime.CloseWindow | src/runtime.cpp:220-244 | At the end of a window the controller is told the average latency and what was counted since the window was opened, its depth and direction are taken over, and counting starts again. |
| Runtime.Runtime.EndItem | src/runtime.cpp:216-244 | The clock and the item count go on; the window is closed exactly when it is full, and never with a fixed depth. |
| Runtime.Runtime.Arrive | src/runtime.cpp:111-189 | On arrival the late requests still remembered are exactly those just seen in flight, the slice's own request is met, and the look-ahead starts from there. |
| Runtime.Runtime.EndPass | src/runtime.cpp:247-256 | Whatever a pass would leave requested counts as unused with its bytes, and is remembered as late if it was seen in flight. |
| Runtime.SaneIs | src/runtime.cpp:15-36 | The constructor's corrections give ratios in order, a budget within the copy cache and a depth within its bounds, the nearest one. |
| Runtime.SoundIsKept | src/runtime.cpp:15-36 | A sound configuration is left as it is. |
| Runtime.LimitIs | src/runtime.cpp:65-81 | A reservation is within the limit exactly when it is within the budget, the copy cache, and, when the depth adapts, half of that cache. |
| StreamBooks.NothingSkipped | src/runtime.cpp:162-168 | A budget for all that a look-ahead can reach never skips a candidate. |
| Runtime.Runtime.Gap | src/prefetcher.cpp:91-131 | Any worker steps between two consumer actions keep the shared state sound and only lower pending bytes. |
| Runtime.Runtime.Consume | src/runtime.cpp:191-214 | The bytes mixed into the checksum are the slice's, whether they come from the cache or the file. |
| StreamBooks.AllMet | src/runtime.cpp:247-256 | At the end of a pass no request is left and nothing is in flight, so the clean-up finds nothing. |
| Runtime.Runtime.NoOverflow | src/prefetcher.cpp:40-42 | The pending-byte overflow error cannot happen: pending slices are distinct parts of one file. |
| StreamBooks.HashSlice | src/runtime.cpp:203-208 | The strided loop is the fold of every 4096th byte. |
| StreamBooks.HashIs | src/runtime.cpp:203-208 | That fold is the fold of the first bytes of the pages, in order. |
| StreamBooks.MixIs | src/runtime.cpp:206-207 | A byte is xored in, then the hash is multiplied by 2^40 + 2^8 + 0xB3 modulo 2^64. |
| WorkerPool.ChunksPartition | src/worker_pool.cpp:34-38 | Every index below n is in exactly one thread's chunk if n + threads - 1 stays below 2^64, and in none otherwise. |
| WorkerPool.StepInv | src/worker_pool.cpp:20-84 | Every step of every thread keeps the protocol's invariant. |
| WorkerPool.CallIsComplete | src/worker_pool.cpp:51-84 | When a call returns or throws, each nonempty chunk ran exactly once and nothing else ran for it, no worker is still in its function or an earlier one, and it throws if and only if one of its chunks threw; `PoolHistory` says that every call made gets there. |
| WorkerPool.CallCoversRange | src/worker_pool.cpp:51-84 | What ran for such a call stayed inside [0,n) and contained every index exactly once, or nothing ran because the rounding sum wrapped. |
| PoolHistory.EveryCallIsServed | src/worker_pool.cpp:51-84 | The calls of a caller with work to do, in order, are those that returned and at most one that is still waiting or running. |
| PoolHistory.ServedCallsAreComplete | src/worker_pool.cpp:51-84 | Whatever has happened since, the log shows every nonempty chunk of every returned call exactly once. |
| PoolHistory.IdleMeansServed | src/worker_pool.cpp:51-84 | An idle caller has been served, completely, every call that it ever made with work to do. |
| PoolHistory.CallerMoves | src/worker_pool.cpp:51-84 | A caller moves only by its own call, its own turn and its own return. |
| WorkerPool.SomeWorkerIsAwake | src/worker_pool.cpp:78-79 | A caller asleep on completion always has an unfinished worker that is awake. |
| WorkerPool.CallIsNotStuck | src/worker_pool.cpp:20-49 | While a caller sleeps on completion some worker step is enabled that lowers the number of steps left to finish the call. |
| WorkerPool.WorkerStepLeft | src/worker_pool.cpp:20-49 | While a call is open no worker step adds to that number, and every step of an unfinished worker lowers it. |
| WorkerPool.JoinIsNotStuck | src/worker_pool.cpp:10-18 | While the destructor waits to join, every remaining worker is awake and its next step is its exit. |
| WorkerPool.ComparesExactly | src/worker_pool.cpp:27-47 | Comparing generation counters modulo 2^64 is exact for counters at most one apart. |
| GgufReader.Load | src/gguf.cpp:335-418 | Loading accepts and rejects exactly as the parser function, with its metadata, tensors and name index; `GgufScalars` and `GgufExact` say what that function reads and refuses. |
| GgufScalars.NumberBack | src/gguf.cpp:95-132 | Every number type: the little-endian encoding of a value in its range, two's complement where signed, reads as that value and moves the reader by the width of the type. |
| GgufScalars.FloatBack | src/gguf.cpp:114-132 | The two float types come back as their bit patterns. |
| GgufScalars.NumberArrayBack | src/gguf.cpp:140-219 | An array of any number type comes back element by element, widened, and is refused exactly for an element past the signed 64-bit range. |
| GgufScalars.DoubleArrayBack | src/gguf.cpp:140-219 | So does an array of doubles. |
| GgufScalars.OtherTypesRefused | src/gguf.cpp:133-136 | Nested arrays and unknown type codes are refused. |
| GgufExact.CountsExactly | src/gguf.cpp:337-347 | A header is accepted exactly with the magic, version 2 or 3, and counts within the limits. |
| GgufExact.StrExactly | src/gguf.cpp:32-43 | A string is refused exactly for its length limit, the file's end or the heap budget. |
| GgufExact.AlignmentExactly | src/gguf.cpp:386-390 | The alignment is the declared positive power of two, 32 without a declaration, and else a refusal. |
| GgufExact.OffsetExactly | src/gguf.cpp:391-393 | Rounding the data start up is refused exactly when it would leave 64 bits. |
| GgufExact.TensorExactly | src/gguf.cpp:404-412 | A tensor is refused exactly for its row blocks, its shape, its size or its place in the file. |
| GgufExact.LayoutIs | src/gguf.cpp:234-281 | The block sizes of every format, from what a block consists of. |
| GgufExact.AcceptedWithinLimits | src/gguf.cpp:335-418 | An accepted file has the magic and a known version, as many items and tensors as its header says, and keeps every limit on counts, keys, names, strings and arrays. |
| GgufReader.Reader.Str | src/gguf.cpp:32-43 | A string read: limit, bounds and budget checks in order, then the bytes. |
| GgufReader.Reader.ElementLoop | src/gguf.cpp:140-219 | Array elements of every type, with the size check before the charge and the loop. |
| GgufReader.PlaceTensors | src/gguf.cpp:394-417 | Placing tensors one by one builds the specified list and an index of exactly its names. |
| GgufReader.TensorByName | src/gguf.cpp:419-424 | Lookup by name returns the tensor of that name, and fails if and only if there is none. |
| GgufReader.GetU64 | src/gguf.cpp:431-440 | Absent, negative and non-integer values read as none, all others as their value. |
| GgufAccepted.AcceptedIsSound | src/gguf.cpp:335-418 | Every accepted byte string: power-of-two alignment, data offset the least multiple at or past the header, every tensor inside the file with the size its shape calls for, unique names and keys, decoded data within the heap budget. |
| GgufAccepted.AcceptedLookup | src/gguf.cpp:413-427 | In an accepted file lookup by name finds the tensor of that name, and misses only absent names. |
| GgufAccepted.HeadIsSound | src/gguf.cpp:44-52 | The budget left after the header plus the cost of everything decoded is exactly the limit. |
| GgufAccepted.BitAndEven | src/gguf.cpp:389-390 | The mask test passes if and only if the alignment is a power of two. |
| GgufAccepted.DataOffsetIsLeast | src/gguf.cpp:391-393 | The add-and-mask rounding gives the least multiple at or past the header, within 64 bits. |
| GgufAccepted.ElementsExact | src/gguf.cpp:222-232 | An accepted element count is the true product, with no wrapped partial product. |
| GgufAccepted.BytesMatch | src/gguf.cpp:234-281 | An accepted byte size is the block count times the block size, within 64 bits. |
| GgufWriter.WriteFile | scripts/make_tiny_gguf.py:50-62 | The writer's loops produce the specified bytes. |
| GgufWriter.ParseUndoesWrite | scripts/make_tiny_gguf.py:50-62 | For distinct keys and names, valid shapes, matching payloads and sizes within the limits, parsing restores the metadata (integer arrays widened) and the tensors if and only if the writer's and the parser's data starts agree. |
| GgufWriter.FixturesComeBack | scripts/make_tiny_gguf.py:50-62 | A file that declares the writer's alignment, or none, comes back. |
| GgufWriter.PayloadsComeBack | scripts/make_tiny_gguf.py:55-62 | A restored tensor's slice of the file is its exact payload. |
| GgufWriter.DeclaredAlignmentIsLost | src/gguf.cpp:386-393 | A concrete file that declares alignment 64 does not come back. |
| GgufWriter.WriteMetadataFile | scripts/make_tokenizer_fixtures.py:18-20 | The writer of metadata alone produces the specified bytes: header counts and values, no padding. |
| GgufWriter.MetadataComesBack | scripts/make_tokenizer_fixtures.py:18-20 | For distinct keys and values within the limits, parsing such a file restores every value and no tensor if and only if the declared alignment is a power of two (or absent) and rounding up to it stays within 64 bits. |
| GgufWriter.EntryBack | scripts/make_tokenizer_fixtures.py:9-17 | Each metadata value, string, number, flag and array, is read back and charged what it costs. |
| Quant.QuantizeQ8 | src/quant.cpp:53-76 | Scales, codes that are the rounded quotients and within half a step of every value, clamps that never act, zero blocks stored as zero bytes, and the length error. |
| Quant.QuantizeQ4 | src/quant.cpp:78-105 | The same for 4-bit codes, packed two to a byte. |
| Quant.PackOne | src/quant.cpp:94-102 | Storing a nibble keeps the earlier ones, and the dot product's unpacking returns it. |
| Quant.HalvesAre | src/quant.cpp:94-102 | Byte j of a packed block holds code 2j in its low half and code 2j + 1 in its high half, each plus 8. |
| RealMath.RoundEvenIs | src/quant.cpp:71-98 | Codes are nearest integers, the even one of two equally near. |
| Quant.DotQ8 | src/quant.cpp:107-134 | The block loop is the sum of block dot products. |
| Quant.DotQ4 | src/quant.cpp:136-176 | The same after unpacking nibbles. |
| Quant.DotQ4Q8 | src/quant_kernels.cpp:62-77 | The integer block sums scaled by both scales, or the length error. |
| Quant.DotQ8Error | src/quant.cpp:53-134 | Quantize-then-dot is within the sum over blocks of (amax/254) times the block's sum of input magnitudes of the exact dot product. |
| Quant.DotQ4Error | src/quant.cpp:78-176 | The same with amax/14. |
| Quant.DotQ4Q8Error | src/quant_kernels.cpp:62-77 | With both sides quantized, the error is within the two-sided product bound, block by block. |
| Quant.QuantizedDotQ8 | src/quant.cpp:53-134 | Quantizing a vector and taking the kernel's dot product gives a result within the Q8_0 bound of the exact dot product, or the length error. |
| Quant.QuantizedDotQ4 | src/quant.cpp:78-176 | The same within the Q4_0 bound. |
| Quant.QuantizedDotQ4Q8 | src/quant_kernels.cpp:62-77 | The same with the weights in Q4_0 and the activations in Q8_0, within the two-sided bound. |

## Left out

- Tokenizer dispatch by model name and the BOS id (src/llama_model.cpp:745-756): easy members around the two encoders.
- `Sampler`, `generate`, single-token `forward` (it quantizes activations that prefill keeps in FP32), kernel profiling, `src/llama2.cpp`, `src/matmul.cpp`, argument parsing, benchmarks and result scripts.
- SIMD, runtime dispatch, OpenMP, IEEE rounding, NaN and infinities: scalar branches over reals; norms, RoPE, softmax and the row dot product are opaque functions of one row.
- Half-precision conversion is an opaque pair; the Q6_K unpacking is part of the opaque row dot product.
- Files, mapping advice, clocks and threads' fairness: the file is a byte sequence, latencies are arbitrary non-negative inputs, progress is stated as an enabled step.
- Llama.RunLayer: activation buffers are one row per token rather than one flat buffer, and the pool's chunks run in order; `WorkerPool` proves what the chunks cover.
- Llama.LlamaModel.ForwardBatch: the cache page size times the key width is assumed to fit 64 bits, and all weight tensors to have supported types.
- Null pointers, except a null cache source, and duplicate stable order among equally long special tokens, which `std::sort` leaves open.
- Statistics counters do not wrap at 2^64; the average window latency and byte totals are exact.
- Runtime.Runtime.RunStream: thread creation and join are not steps; the worker's last steps run inside `stop`.
- GGUF floats are kept as bit patterns, so widening a float to double is the identity here; object sizes in the heap charge are those of a 64-bit libstdc++ (32, 72 and 80 bytes).
- GgufReader.GetU64: the other typed getters are not modelled, because they are the same lookup with another type test.
