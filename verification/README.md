# Verification of the knowledge system's core

A model in Dafny of seven parts of the `wks` program, with proofs of what they promise:

- the **transform cache** (`TransformCache`, `TransformSafety`,
  `TransformAccess`, `TransformLedger`, `TransformController`, `Utf8`): database
  records, files and a separate byte counter, with eviction and pruning. It agrees with running
  the engine and reading what it wrote, and its counter never undercounts;
- the **search runtime's memory** of index contents under a (count, newest id) fingerprint
  (`SearchCache`, `SearchRuntime`): every lookup equals a rebuild, because ids only grow;
- **greedy matching** of a similarity matrix and the **semantic diff** built on it (`Matching`,
  `MatchingOrder`, `SemanticDiff`, `DiffStatus`): at least half of the optimum; nothing is lost or counted twice;
- the **sliding-window chunker** (`Chunker`, `ChunkPlaces`), **rank fusion**, deduplication and the strategy
  search (`Fusion`, `FusionScores`, `RankOrder`, `Dedupe`, `Overfetch`, `OverfetchLimit`, `StrategySearch`,
  `StrategyLaws`, `SearchStability`; `Kernels`, `Pages` and `Overtaking` build their counterexamples);
- the **wiki-link rename** against the Markdown parser (`Rename`, `RenameLaws`,
  `RenamePreserves`, `RenameReadings`): for which texts the rename means to the parser what it should;
- two protocols: the **heartbeat relay** between two threads (`Heartbeat`,
  `HeartbeatTexts`) and the **message framing** of the MCP server (`Framing`, `FramingLaws`);
- the **monitor's collection cap** (`Monitor`, `MonitorRetention`, `MonitorSync`), its **path rules**
  (`PathRules`), and the **nested configuration update** (`NestedConfig`, `NestedDicts`).

`Sorting`, `Text`, `TextLaws` and `Options` hold what the others share.

Objects the program changes in place are classes here; their methods are proved equal to functions
on values, and the laws are lemmas about those functions. Scores, progress and priorities are
`real`. Digests are idealised as injective. Engines, glob matching, JSON recognition, path
normalisation and formatting of seconds are parameters. Time stamps are integers.

Several properties turned out to hold only under a condition, which is then given exactly (by a
lemma whose name ends in `Exactly`):

- a negative matching threshold voids the weight guarantee;
- eviction deletes by checksum (`wks/api/database/Database.py:51-52` deletes every match), so
  siblings from other engines go uncounted;
- room is made for the input's size while the output's size is added;
- content is given only when the engine's output is UTF-8, which the output of an engine that copies
  binaries is not (`wks/api/transform/_TransformController.py:363`);
- a lookup that is interleaved with a writer, even between its count and its newest id, can go stale for
  good;
- three times the results loses none when n lists and k results satisfy (2n - 1)(k - 1) < 3k;
- more results extend the ones already there for a single semantic index; a single lexical index does so
  from 17 results on, lexical indexes alone from 3334 on, and others never (below ten thousand results);
- a rename misses padded targets and escaped bars, and changes links whose alias holds an escaped
  bar; a line with an open `[[old|` can hide a link on the next line;
- the framing reads a header part only when Content-Length comes first, and counts characters
  where the "Header Part" of the "Base Protocol" of the Language Server Protocol specification,
  version 3.17, counts bytes and fixes no order.

## Model

| member | source | states |
|---|---|---|
| TransformCache.CacheKeyInjective | wks/api/transform/_TransformController.py:79-81 | the key string checksum:engine:options determines the transform when the two hashes hold no colon, whatever the engine name holds |
| TransformController.CacheManager.GetLruEntries | wks/api/transform/_CacheManager.py:34-78 | the three scans and the loop give the shortest front of the eviction order that frees enough |
| TransformController.CacheManager.Evict | wks/api/transform/_CacheManager.py:93-107 | files of the entries are unlinked, and every record that shares a checksum with an entry is deleted |
| TransformController.CacheManager.EnsureSpace | wks/api/transform/_CacheManager.py:80-109 | the whole new store and the returned locations |
| TransformController.CacheManager.AddFile | wks/api/transform/_CacheManager.py:111-113 | the counter grows by the size |
| TransformController.CacheManager.RemoveFile | wks/api/transform/_CacheManager.py:115-117 | the counter falls by the size, not below zero |
| TransformController.Controller.FindCachedTransform | wks/api/transform/_TransformController.py:83-108 | the scan with pruning on the way: which record it returns and the store it leaves |
| TransformController.Controller.PruneStaleTransform | wks/api/transform/_TransformController.py:140-160 | file, referenced files, record and counter after a stale entry is removed |
| TransformController.Controller.PerformNewTransform | wks/api/transform/_TransformController.py:187-250 | room is made for the input, the engine runs, the output is counted and recorded |
| TransformController.Controller.Transform | wks/api/transform/_TransformController.py:252-295 | hit or new transform: the whole new store and the result; a hit gives the first record of the transform the time of access and changes nothing else |
| TransformController.Controller.FindMatchingRecord | wks/api/transform/_TransformController.py:310-319 | the first record whose recomputed key is the one asked for |
| TransformController.Controller.ResolveCacheFile | wks/api/transform/_TransformController.py:321-344 | a file of the key when there is one; otherwise the record is pruned and an error returned |
| TransformController.Controller.GetContentByKey | wks/api/transform/_TransformController.py:346-363 | the content request by key on any sound store: record, file, access time, and strict UTF-8 reading, which fails on other bytes; a successful one gives the first record of the key's transform the time of access |
| TransformController.Controller.GetContentByPath | wks/api/transform/_TransformController.py:365-388 | content by path succeeds exactly when the engine produces an output that is UTF-8, and is its text |
| TransformSafety.EvictionOrderSorted | wks/api/transform/_CacheManager.py:39-70 | eviction goes by class (bin, txt, other) and by oldest access within a class |
| TransformSafety.EvictionOrderPermutes | wks/api/transform/_CacheManager.py:39-70 | the order lists every record exactly once |
| TransformSafety.EvictedIsShortestPrefix | wks/api/transform/_CacheManager.py:72-91 | the evicted entries are the shortest sufficient front of the order, or all of it |
| TransformSafety.EnsureSpaceFits | wks/api/transform/_CacheManager.py:80-109 | counter plus incoming size is within the limit afterwards if and only if the recorded sizes cover the shortfall |
| TransformSafety.EvictionDrift | wks/api/transform/_CacheManager.py:96-107 | counter minus recorded sizes grows by exactly the sizes of the records deleted for sharing a checksum |
| TransformSafety.DistinctMeansNoCollateral | wks/api/transform/_CacheManager.py:96-107 | with pairwise distinct checksums eviction keeps counter minus recorded sizes |
| TransformSafety.SiblingDeletedUncounted | wks/api/transform/_CacheManager.py:96-107 | two engines on one file: evicting one deletes the other's record and leaves its bytes counted |
| TransformLedger.CounterExactOverRuns | wks/api/transform/_CacheManager.py:80-113 | over every run from an empty cache in which each content transformed has no record at that moment (it may have had one that was evicted), whatever files are lost meanwhile, the counter equals the recorded sizes |
| TransformLedger.SiblingsLeaveBytesCounted | wks/api/transform/_CacheManager.py:96-107 | with two engines on one content some run reaches no record and a counter above zero |
| TransformSafety.NewTransformDrift | wks/api/transform/_TransformController.py:187-250 | a new transform moves counter minus recorded sizes only through its eviction |
| TransformSafety.NewTransformBound | wks/api/transform/_TransformController.py:205-228 | counter at most limit plus (output size minus input size) afterwards if and only if the recorded sizes covered the shortfall |
| TransformSafety.CounterCovers | wks/api/transform/_CacheManager.py:96-117 | in a sound cache the counter is at least the recorded sizes and at least the bytes of all cache files |
| TransformSafety.CounterCoversEveryRun | wks/api/transform/_CacheManager.py:106-117 | the same in every run of transforms, content requests, prunings and file losses from an empty cache, so the subtraction never goes below zero |
| TransformSafety.RunKeepsSound | wks/api/transform/_TransformController.py:83-388 | soundness (cache files are engine outputs, records describe them, the counter covers) is kept by every run |
| TransformSafety.TransformThenGetContent | wks/api/transform/_TransformController.py:252-388 | a transform succeeds exactly when its engine does, hit or miss, and the content request that follows with its key reads the engine's output: its text, or an error when it is not UTF-8 |
| TransformSafety.GetContentNeverLies | wks/api/transform/_TransformController.py:346-363 | a content request by key returns nothing but the text of the output of the transform the key names |
| TransformSafety.CacheIsTransparent | wks/api/transform/_TransformController.py:252-388 | cache transparency after every run from an empty cache: asking for content succeeds if and only if the engine produces an encoded text, and gives that text with line feeds |
| TransformSafety.TextComesBack | wks/api/transform/_TransformController.py:363 | a text an engine writes comes back unchanged if and only if it holds no carriage return |
| TransformSafety.CopiedBinaryUnreadable | wks/api/transform/_binarypass/_BinaryPassEngine.py:15-31 | an engine that copies an input that is not UTF-8: the transform succeeds, is recorded and stored, and the content request fails |
| TransformSafety.OneByteUnreadable | wks/api/transform/_TransformController.py:363 | such an input: the single byte 255 |
| Utf8.DecodesExactly | wks/api/transform/_TransformController.py:363 | strict decoding succeeds on exactly the encodings of texts |
| Utf8.WrittenTextExactly | wks/api/transform/_TransformController.py:363 | a text written as UTF-8 and read in text mode: every line end becomes a line feed, so it is itself if and only if it holds no carriage return |
| TextLaws.EndsAreFeeds | wks/api/transform/_TransformController.py:363 | in text mode every line feed, carriage return and CR LF is read as one line feed, and the rest as it was |
| TransformSafety.RepeatHitsExactly | wks/api/transform/_TransformController.py:96-106 | repeating a transform is a hit if and only if the extension is one stored files are sought under and the output is not stale |
| TransformAccess.HitStamps | wks/api/transform/_TransformController.py:162-185 | a hit gives the first record of the transform the time of access and leaves every other record, all files and the counter as they were |
| TransformAccess.ContentRequestDoes | wks/api/transform/_TransformController.py:310-358 | a content request by key gives the record the time of access when there is a file of the key, deletes the record when there is none, and changes nothing when there is no record |
| TransformAccess.PruneDoes | wks/api/transform/_TransformController.py:140-160 | pruning takes the file, the files its record refers to and the records of the transform, and the file's bytes off the counter; all else is as it was |
| TransformAccess.NewTransformDoes | wks/api/transform/_TransformController.py:187-250 | a transform that is no hit prunes at most one stale entry, makes room for the input, and adds the record with its time, the output's bytes, the file and the artifacts, or nothing when the engine fails |
| TransformAccess.OwnArtifactsAreThere | wks/api/transform/_TransformController.py:110-123 | an output that refers only to artifacts written with it is not stale: the repeated transform is a hit |
| TransformAccess.LaterUsedIsBehind | wks/api/transform/_CacheManager.py:39-70 | of two records of a class the one used later stands behind in the order of eviction |
| TransformAccess.EvictedAfterOthers | wks/api/transform/_CacheManager.py:72-91 | a record is evicted only along with those of the classes before, and those of its class used before it |
| TransformAccess.HitIsEvictedLast | wks/api/transform/_TransformController.py:162-185 | a record hit later than any other access is not evicted next unless all others of its class are |
| SearchRuntime.EmbeddingStore.ReplaceIndexModel | wks/api/index/_EmbeddingStore.py:8-13 | the documents of the index and model are deleted, the others stay in order, and the new ones follow in order with the next ids |
| SearchRuntime.EmbeddingStore.ReplaceUri | wks/api/index/_EmbeddingStore.py:15-26 | the same for the documents of the index, model and uri |
| SearchRuntime.EmbeddingStore.GetAll | wks/api/index/_EmbeddingStore.py:28-34 | exactly the documents of the index and model, in collection order |
| SearchRuntime.ChunkStore.ReplaceUri | wks/api/index/_ChunkStore.py:15-32 | the same for the documents of the index and uri; the new ones are the chunks in order, each under the uri it carries |
| SearchRuntime.ChunkStore.Clear | wks/api/index/_ChunkStore.py:88-90 | one index emptied, or every index for an empty name |
| SearchRuntime.ChunkStore.GetAll | wks/api/index/_ChunkStore.py:40-50 | exactly the documents of the index, in collection order |
| SearchRuntime.ClearRemoves | wks/api/index/_ChunkStore.py:88-90 | clearing one index leaves exactly the documents of the others; clearing with no name leaves nothing |
| SearchRuntime.ReplacedExactly | wks/api/index/_EmbeddingStore.py:8-26 | a document is there after a replacement if and only if it was there outside the index and model (or index, model and uri; or index and uri) replaced, or is one of the new ones |
| SearchRuntime.Runtime.Reset | wks/api/search/_SearchRuntime.py:48-54 | both memories and the configuration are dropped |
| SearchRuntime.Runtime.LoadConfig | wks/api/search/_SearchRuntime.py:56-74 | an unchanged file is answered from memory; anything else reloads and drops both memories |
| SearchRuntime.Runtime.GetLexicalIndexState | wks/api/search/_SearchRuntime.py:76-100 | the lexical state returned equals a rebuild and holds exactly the documents of the index, and the memory stays coherent |
| SearchRuntime.Runtime.GetSemanticIndexState | wks/api/search/_SearchRuntime.py:116-147 | the same for the semantic state and the documents of an index and model |
| SearchCache.EqualFingerprints | wks/api/search/_SearchRuntime.py:154-159 | equal count and newest id force the live documents to be the remembered ones |
| SearchCache.AnswerIsFresh | wks/api/search/_SearchRuntime.py:124-147 | a lookup answered from a coherent memory is what rebuilding gives |
| SearchCache.ReplaceKeepsCoherent | wks/api/index/_EmbeddingStore.py:8-26 | every delete-then-insert of the stores keeps the memory coherent |
| SearchCache.EveryLookupIsFresh | wks/api/search/_SearchRuntime.py:76-159 | in every run of store updates, resets and atomic lookups, every lookup equals a rebuild |
| SearchCache.TornReadExactly | wks/api/search/_SearchRuntime.py:124-147 | with writers between the count, the newest id and the read, the stored record is a rebuild if and only if the documents read are as many as were counted, all among those at the second query, with its newest |
| SearchCache.TornAnswerExactly | wks/api/search/_SearchRuntime.py:124-159 | a later undisturbed lookup, after any writes between and after the three queries, equals a rebuild if and only if the live documents do not have the stored count and newest id (as many as counted, all among those at the second query, with its newest) or have the contents that were read |
| SearchCache.UndividedLooksLikeItself | wks/api/search/_SearchRuntime.py:154-159 | when nothing is written between the count and the newest id, only the documents then present have that fingerprint |
| SearchCache.TornReadGoesStale | wks/api/search/_SearchRuntime.py:124-147 | a document added between the fingerprint and the read and removed later is returned by the next lookup |
| SearchCache.TornCountGoesStale | wks/api/search/_SearchRuntime.py:154-159 | a document added between the count and the newest id, and another removed later: the next lookup returns both |
| Matching.CollectPairs | wks/api/similar/_similar_helpers.py:150-156 | the nested loops collect the qualifying cells in row order |
| Matching.GreedyMatch | wks/api/similar/_similar_helpers.py:147-168 | the loop over the sorted pairs computes the greedy matching |
| Matching.SortedPairs | wks/api/similar/_similar_helpers.py:150-157 | exactly the qualifying cells reach the selection loop, best first |
| Matching.GreedyIsMatching | wks/api/similar/_similar_helpers.py:159-168 | the result is a matching of in-range cells at or above the threshold, best first |
| Matching.GreedyDominates | wks/api/similar/_similar_helpers.py:162-167 | every qualifying cell is chosen or conflicts with a chosen one of no smaller score |
| Matching.GreedyFits | wks/api/similar/_similar_helpers.py:151-168 | no more matches than rows or columns, so both coverages are at most one |
| Matching.GreedyHalfOptimal | wks/api/similar/_similar_helpers.py:147-168 | against every matching of qualifying cells: half the size, and half the weight for a threshold that is not negative |
| Matching.HalfWeightExactly | wks/api/similar/_similar_helpers.py:147-168 | the weight guarantee holds for a threshold if and only if it is not negative |
| Matching.HalfIsTight | wks/api/similar/_similar_helpers.py:147-168 | the factor two is attained |
| Matching.GreedyFindsMaximum | wks/api/similar/_similar_helpers.py:147-168 | the first pair attains the maximum of the whole matrix; no pair if and only if no cell qualifies |
| MatchingOrder.GreedyExactly | wks/api/similar/_similar_helpers.py:147-168 | a cell is chosen if and only if it qualifies and shares no row or column with a chosen one that scores more, or as much and stands before it in row-major order |
| SemanticDiff.DiffConserves | wks/api/diff/SemanticDiffEngine.py:59-130 | added + modified + unchanged = units of B and removed + modified + unchanged = units of A, empty texts included |
| SemanticDiff.SelfMatchComplete | wks/api/diff/SemanticDiffEngine.py:175-196 | a text matches itself completely at score one, duplicate lines included |
| SemanticDiff.SelfDiffUnchanged | wks/api/diff/SemanticDiffEngine.py:59-130 | diffing a text with itself reports "unchanged" if and only if it is empty or both thresholds are at most one |
| DiffStatus.StatusExactly | wks/api/diff/SemanticDiffEngine.py:69-112 | for all thresholds and texts not both empty: unchanged if and only if every unit of both is matched at the upper threshold; changed if and only if a text is empty, or no cell qualifies for a positive lower threshold; near-unchanged if and only if not unchanged, some cell qualifies, at most one unit is left over and the matches sum to the upper threshold times their number; else modified |
| DiffStatus.SimilarityWithin | wks/api/diff/SemanticDiffEngine.py:62-104 | the similarity is the mean of the matched scores, between the lowest and the highest; 1 for two empty texts, else 0 when no cell qualifies |
| DiffStatus.ExamplesTellTheTruth | wks/api/diff/SemanticDiffEngine.py:91-128 | the examples are the first of the unmatched units of each text, in order, and of the pairs matched below the upper threshold, best first, with both units and the score |
| Chunker.SlidingWindowChunker.Grow | wks/api/index/_SlidingWindowChunker.py:20-27 | the inner loop computes the window end and its tokens |
| Chunker.SlidingWindowChunker.FindRestart | wks/api/index/_SlidingWindowChunker.py:44-55 | the overlap loop computes the restart |
| Chunker.SlidingWindowChunker.Chunk | wks/api/index/_SlidingWindowChunker.py:9-57 | the loops compute the chunks of the windows |
| Chunker.SlidingWindowChunker.EmitWindows | wks/api/index/_SlidingWindowChunker.py:19-55 | the outer loop ends and emits one chunk for each window that is not blank |
| Chunker.WindowsRun | wks/api/index/_SlidingWindowChunker.py:19-55 | starts strictly increase, ends never decrease, at most one window a line, each maximal and within the limit or a single line, shared tokens within the overlap |
| Chunker.LaterReachesAsFar | wks/api/index/_SlidingWindowChunker.py:22-27 | a window grown from a later start reaches at least as far |
| Chunker.WindowsCoverText | wks/api/index/_SlidingWindowChunker.py:9-55 | the windows' new parts put together are the text |
| Chunker.ChunksAreHonest | wks/api/index/_SlidingWindowChunker.py:29-39 | tokens are the word count of the stripped text; indices count from zero in order |
| Chunker.ContinuationFlags | wks/api/index/_SlidingWindowChunker.py:29-39 | every chunk but the first is a continuation; the first is one if and only if the first window is blank |
| Chunker.EveryLineInAChunk | wks/api/index/_SlidingWindowChunker.py:9-57 | the stripped content of every line that is not blank stands in a chunk |
| TextLaws.LinesExactly | wks/api/index/_SlidingWindowChunker.py:10 | the lines of a text are the one sequence of parts that joins to it in which no part has a line break before its end, every part but the last ends in one, and no CR LF is cut |
| TextLaws.WordsExactly | wks/api/index/_SlidingWindowChunker.py:14 | the words of a text are the parts without white space between gaps of white space, none of them empty |
| TextLaws.StripExactly | wks/api/index/_SlidingWindowChunker.py:29 | stripping leaves what stands between white space |
| TextLaws.SpacesAre | wks/api/index/_SlidingWindowChunker.py:10-29 | the ten characters at which lines end, and the nineteen others that are white space |
| ChunkPlaces.ChunksStandInText | wks/api/index/_SlidingWindowChunker.py:9-58 | each chunk is a part of the text, in order, and every character that is not white space stands in a chunk |
| ChunkPlaces.ChunkIsLimited | wks/api/index/_SlidingWindowChunker.py:22-39 | a chunk keeps to the token limit, or it holds no line break |
| Fusion.HitKeyInjective | wks/api/search/_rrf.py:10 | the key uri:chunk_index is injective whatever the uri holds |
| Fusion.RankingIs | wks/api/search/_rrf.py:15-19 | each key once, with its first hit and fused score, best first |
| Fusion.UnanimousScore | wks/api/search/_rrf.py:8-13 | a key that precedes another in every list with the latter scores strictly more |
| Fusion.FusionIsUnanimous | wks/api/search/_rrf.py:4-19 | and stands before it in the output |
| Fusion.ScoreOrderIndependent | wks/api/search/_rrf.py:8-13 | fused scores do not depend on the order of the lists |
| Fusion.TiesKeepOrder | wks/api/search/_rrf.py:15 | equal fused scores stay in the order in which their keys were first seen |
| FusionScores.ScoreFromRanks | wks/api/search/_rrf.py:8-11 | a key scores 1 / (60 + rank) for each list that holds it |
| FusionScores.OneListScores | wks/api/search/_rrf.py:4-19 | the hit of rank r in a single list is reported with the score 1 / (60 + r) |
| FusionScores.ReportedIsFirst | wks/api/search/_rrf.py:8-19 | what is reported for a key is the hit at its first place, lists in order, with the fused score |
| StrategySearch.AddList | wks/api/search/_rrf.py:9-13 | the inner loop enters one list into both dictionaries |
| StrategySearch.BuildTables | wks/api/search/_rrf.py:5-13 | the loops build both dictionaries |
| StrategySearch.TablesScores | wks/api/search/_rrf.py:11 | the score dictionary holds the fused scores |
| StrategySearch.TablesDocs | wks/api/search/_rrf.py:12-13 | the document dictionary holds the first hit of each key |
| StrategySearch.RrfMerge | wks/api/search/_rrf.py:4-19 | the merge computes the cut ranking |
| StrategySearch.CollectLists | wks/services/search.py:252-301 | the loop over the indexes collects their deduplicated answers and counts their hits |
| FusionScores.CountedBeforeFusion | wks/services/search.py:257-298 | the hits counted are those of all lists together |
| StrategySearch.RunStrategySearch | wks/services/search.py:233-330 | the composition of per-index deduplication, fusion and final deduplication |
| StrategySearch.RankedListsDeduped | wks/services/search.py:258-301 | fused lists are deduplicated, so their keys are distinct |
| StrategyLaws.StrategyLosslessExactly | wks/services/search.py:252-318 | for each n and k >= 1: over whatever n indexes answer, cutting the fused list at 3k loses no result if and only if (2n - 1)(k - 1) < 3k |
| StrategyLaws.StrategyIsUnanimous | wks/services/search.py:258-318 | when a hit precedes another in the list of every index that has the latter, and the latter is a result, then before it among the results stands the former, or one that collides with it and scores no less |
| StrategySearch.StrategyResults | wks/services/search.py:317-330 | results number at most k and differ in uri and text |
| Dedupe.ComputeDedupe | wks/api/search/_dedupe_hits.py:7-34 | the loop with early exit computes the limited deduplication |
| Dedupe.DedupeTakes | wks/api/search/_dedupe_hits.py:31-32 | the limit cuts the unlimited result; a limit below one still leaves one hit |
| Dedupe.DedupeIsDeduped | wks/api/search/_dedupe_hits.py:7-34 | canonical uris all different and texts all different |
| Dedupe.SkippedCollides | wks/api/search/_dedupe_hits.py:16-17 | a hit is skipped if and only if it collides with a kept one before it |
| Dedupe.DedupeIdempotent | wks/api/search/_dedupe_hits.py:7-34 | deduplicating twice changes nothing more |
| FusionScores.SameUriExactly | wks/api/search/_dedupe_hits.py:13 | a path is the same uri as the file uri of its normalised form on the host, as another path if and only if both normalise alike, and as no other uri |
| Dedupe.MoreResultsExtend | wks/api/search/_rrf.py:15-19 | for fixed ranked lists and 1 <= k <= k' the k results are the front of the k' results |
| SearchStability.OneListKeepsOrder | wks/api/search/_rrf.py:8-19 | fusing a single list only scores it by rank |
| SearchStability.LimitSaturates | wks/services/search.py:431-432 | for k < k' a lexical index ranks equally many chunks for both, over-fetched, if and only if k >= 17 |
| FusionScores.LimitIs | wks/services/search.py:431-432 | the number of chunks ranked is 200 a result, but from 1000 to 10000 |
| SearchStability.LexicalUnstable | wks/services/search.py:192-228 | for every k < 17 and k' > k one lexical index can rank another hit first for k' |
| SearchStability.TwoUnstable | wks/services/search.py:253-318 | for every k and k' > k, two indexes whose lists have room for them (a lexical one ranks at most 10000 chunks) can return results that are not the first of those for k'; even the uris differ |
| SearchStability.MoreResultsExactly | wks/services/search.py:168-318 | for semantic and lexical indexes in any order and k < k': the k results are the first of the k' results, whatever the indexes answer, if and only if there is no index, or one semantic index, or one lexical index and k >= 17, or only lexical indexes and k >= 3334 |
| SearchStability.AlwaysStableExactly | wks/services/search.py:168-318 | this is so for all k < k' if and only if there is no index or one semantic index |
| Overfetch.KeptCovers | wks/api/search/_dedupe_hits.py:12-29 | each kept hit accounts for itself and at most two hits of every other list |
| Overfetch.CutIsLossless | wks/api/search/_rrf.py:15-19 | cutting at 3k loses nothing when n deduplicated lists satisfy (2n - 1)(k - 1) < 3k |
| OverfetchLimit.LosslessExactly | wks/api/search/_rrf.py:18 | for each n and k >= 1: the cut at 3k is lossless for all n deduplicated lists if and only if (2n - 1)(k - 1) < 3k |
| Heartbeat.Channel.WorkerStep | wks/api/config/_progress_heartbeat.py:59-65 | one put of the worker: the next update, or the end |
| Heartbeat.Channel.ConsumerStep | wks/api/config/_progress_heartbeat.py:72-86 | one get of the consumer, or one timeout |
| Heartbeat.Channel.Interleave | wks/api/config/_progress_heartbeat.py:56-86 | any interleaving of the two threads is a run of the protocol |
| Heartbeat.RelayRefinesChild | wks/api/config/_progress_heartbeat.py:72-86 | yields that are not heartbeats are a prefix of the child's updates in order, all of them on return, and before the child's error |
| Heartbeat.HeartbeatsTellTheTruth | wks/api/config/_progress_heartbeat.py:75-78 | each heartbeat repeats the last progress and gives the time since the child was last heard |
| HeartbeatTexts.RelayedReads | wks/api/config/_progress_heartbeat.py:82-86 | in every run the i-th yield that is no heartbeat shows the i-th update: its text behind prefix and colon, if there is a prefix, and its progress along the stage's range |
| HeartbeatTexts.HeartbeatReads | wks/api/config/_progress_heartbeat.py:74-78 | in every run the n-th heartbeat in a row repeats the progress before it, and its text is the idle message with n intervals as the elapsed time |
| HeartbeatTexts.NegativeIntervalFails | wks/api/config/_progress_heartbeat.py:71-79 | with a negative interval the consumer's first step fails, and nothing is shown |
| Heartbeat.ProgressInOrder | wks/api/config/_progress_heartbeat.py:69-86 | progress stays in [start, end] and never goes back when the child's stays in [0, 1] and never goes back |
| Heartbeat.ProgressInOrderExactly | wks/api/config/_progress_heartbeat.py:69-86 | over a finished run of a stage with a range to fill, if and only if |
| Heartbeat.AlwaysAdvances | wks/api/config/_progress_heartbeat.py:59-86 | no deadlock: until the end some step brings it nearer, and a heartbeat never puts it further off |
| Heartbeat.EveryRunCanFinish | wks/api/config/_progress_heartbeat.py:59-86 | every run can be completed, to the child's own end |
| Heartbeat.CallShowsItsWait | wks/api/config/_progress_heartbeat.py:32-44 | a call with a positive interval yields the i-th heartbeat after i intervals and ends as the function does |
| Framing.Server.ReadMessage | wks/mcp/server.py:294-312 | the loops compute the reading function: message, rest of the input, mode |
| Framing.Server.SkipHeaderLines | wks/mcp/server.py:304-307 | the inner loop skips to the blank line or the end |
| Framing.Server.WriteMessage | wks/mcp/server.py:314-322 | what is appended to the output in each mode |
| Framing.ReadLineMessage | wks/mcp/server.py:310 | a message on a line of its own is read back |
| Framing.ReadHeaderMessage | wks/mcp/server.py:302-309 | content of the declared length is read whole, whatever fields follow Content-Length |
| Framing.HeaderOrderExactly | wks/mcp/server.py:302-310 | a header part is understood if and only if Content-Length comes first |
| FramingLaws.HeaderExactly | wks/mcp/server.py:302 | a line is a header if and only if, stripped, it begins with the name in any letter case |
| FramingLaws.AnyCaseIsRead | wks/mcp/server.py:302-310 | a header in any letter case announces the content after the blank line: as many characters as it says, or all for a negative number |
| FramingLaws.BadLengthIsRefused | wks/mcp/server.py:302-313 | a header whose value holds another character than digits, signs, underscores and white space is an error, and reading goes on behind its line |
| FramingLaws.LineIsRead | wks/mcp/server.py:299-311 | a line that is neither blank nor a header is the message it holds between JSON white space, or an error when that is no JSON text |
| Framing.ByteLengthExactly | wks/mcp/server.py:303-309 | for a length in bytes, the next message starts where the content ends if and only if the content is ASCII |
| Framing.ReadEncoded | wks/mcp/server.py:294-322 | one written message is read back in either mode; the closing line feed of header mode stays behind |
| Framing.SessionRoundTrip | wks/mcp/server.py:294-322 | any sequence of written messages, the mode changing at will, is read back in order and then the end is reported |
| Text.DecimalRoundTrip | wks/mcp/server.py:303-318 | printing a length and reading it back |
| TextLaws.DecimalExactly | wks/mcp/server.py:318 | a length is written as the one numeral without leading zeros that has its value |
| FramingLaws.NumberIsRead | wks/mcp/server.py:303 | a number is read as it is written, sign included, with any white space around it |
| Rename.Vault.Rewrite | wks/api/vault/_obsidian/_Backend.py:174-181 | one file: what becomes of it and whether it changed |
| Rename.Vault.RewriteWikiLinks | wks/api/vault/_obsidian/_Backend.py:168-182 | every readable file is rewritten, unreadable ones are left, and the count is the number of files changed |
| RenameReadings.CountIsChanged | wks/api/vault/_obsidian/_Backend.py:172-182 | the count is the number of readable files whose text the substitution changes |
| Rename.ScanOfMap | wks/api/link/_parsers/_MarkdownParser.py:14-18 | rewriting the links of a line leaves the parser's cuts where they were |
| RenameLaws.SubAtLink | wks/api/vault/_obsidian/_Backend.py:169 | at a link the substitution matches exactly the plain form of its target |
| RenameLaws.SubLine | wks/api/vault/_obsidian/_Backend.py:178 | on a line where matches begin at links only, the substitution rewrites exactly the parser's links |
| RenameLaws.SubText | wks/api/vault/_obsidian/_Backend.py:178 | such a text is rewritten line by line and its lines stay its lines |
| RenameLaws.CleanIsClear | wks/api/vault/_obsidian/_Backend.py:169 | when the opening and the target stand only where a link begins, matches begin at links only |
| RenamePreserves.ReadPlain | wks/api/link/_parsers/_MarkdownParser.py:18-30 | how a plainly written link is read |
| RenameReadings.LinkIsRead | wks/api/link/_parsers/_MarkdownParser.py:12-34 | a link at the front of a line is read first, embedded if and only if it is written with an exclamation mark, and then the rest |
| RenameReadings.GapIsSkipped | wks/api/link/_parsers/_MarkdownParser.py:13 | a character with which no link begins is passed over |
| RenameReadings.AliasIsRead | wks/api/link/_parsers/_MarkdownParser.py:18-34 | a link with a bar, embedded or not: the target, and the alias without padding |
| RenameReadings.EscapedAliasIsRead | wks/api/link/_parsers/_MarkdownParser.py:20-21 | a link with an escaped bar is read alike, further bars belong to the alias |
| RenamePreserves.RawExactly | wks/api/link/_parsers/_MarkdownParser.py:18-30 | one link is renamed as its reading asks if and only if it is not awkward (padded, escaped bar) |
| RenamePreserves.RenameExactly | wks/api/vault/_obsidian/_Backend.py:168-182 | over every text in which the pattern matches at links only: same links, order, lines, aliases and embed flags with exactly the old targets replaced, if and only if no link is awkward |
| RenamePreserves.UnclosedLastLineIsClear | wks/api/vault/_obsidian/_Backend.py:169 | a last line may hold any openings that are never closed |
| RenamePreserves.ChangedExactly | wks/api/vault/_obsidian/_Backend.py:178-181 | a file changes if and only if it has a link written plainly to the old target |
| RenamePreserves.NoneLeft | wks/api/vault/_obsidian/_Backend.py:169-178 | no match for the old target remains |
| RenamePreserves.RenameBackExactly | wks/api/vault/_obsidian/_Backend.py:168-182 | renaming back restores the text if and only if nothing was linked to the new target before |
| RenamePreserves.OpenLineShadowsLink | wks/api/vault/_obsidian/_Backend.py:169 | an unclosed opening on the line above makes the rename miss a link, whatever the targets |
| RenamePreserves.NestedLinkChanges | wks/api/vault/_obsidian/_Backend.py:169 | an opening inside a link makes the rename change a link to another target |
| Monitor.Nodes.DropExtras | wks/api/monitor/_enforce_monitor_db_limit.py:11-22 | the second pass: the lowest ranked nodes beyond the cap |
| Monitor.Nodes.EnforceLimit | wks/api/monitor/_enforce_monitor_db_limit.py:4-25 | both passes: floor, then the lowest ranked beyond the cap |
| Monitor.Nodes.SyncAll | wks/api/monitor/_sync_uri.py:64-121 | the loop over the files: collection and counters |
| Monitor.Nodes.SyncUri | wks/api/monitor/_sync_uri.py:20-148 | the whole sync: new collection and report |
| MonitorRetention.RunKeepsRecordsSingle | wks/api/monitor/_sync_uri.py:94-129 | over every run: at most one record per local URI, per identifier, and one meta record |
| MonitorRetention.CapKeepsTop | wks/api/monitor/_enforce_monitor_db_limit.py:13-22 | the nodes left are exactly the highest ranked ones, as many as fit |
| MonitorRetention.CapDropsLowest | wks/api/monitor/_enforce_monitor_db_limit.py:20-22 | no dropped node outranks one that is left |
| MonitorRetention.CapSparesMeta | wks/api/monitor/_enforce_monitor_db_limit.py:13-22 | the cap never touches the meta record |
| MonitorRetention.SyncRetainsExactly | wks/api/monitor/_sync_uri.py:64-129 | after a sync of an existing path: one meta record, and the smaller of the cap and the number of nodes |
| MonitorRetention.SyncKeepsHighest | wks/api/monitor/_sync_uri.py:123-129 | survivors with a stored priority meet a positive floor, and no node dropped by the cap outranks them |
| MonitorRetention.EnforcedExactly | wks/api/monitor/_enforce_monitor_db_limit.py:8-22 | which documents the two passes remove; none is changed |
| MonitorRetention.ReportAddsUp | wks/api/monitor/_sync_uri.py:64-148 | synced + skipped = files processed, and every error is a skip |
| MonitorRetention.FilesStoreExpected | wks/api/monitor/_sync_uri.py:64-117 | the loop is a series of updates of a map from URI to record; a file that fails or is of low priority keeps its old record |
| MonitorSync.MissingIsForgotten | wks/api/monitor/_sync_uri.py:46-62 | after any run, a sync of a missing path removes every document of its URI and leaves all others, in order, and adds none |
| MonitorSync.ForeignIsRefused | wks/api/monitor/_sync_uri.py:32-44 | after any run, a sync of anything but a file changes nothing and fails |
| MonitorSync.ReportExactly | wks/api/monitor/_sync_uri.py:68-144 | the report counts the files allowed, readable and of sufficient priority, those skipped, and those that could not be read; it is a success if and only if there is none of the last |
| MonitorSync.FilesLeaveOthers | wks/api/monitor/_sync_uri.py:78-124 | processing files leaves every document of another URI, or of none, as it was |
| MonitorSync.MetaHoldsTime | wks/api/monitor/_sync_uri.py:125-129 | after a sync of an existing path there is a meta record, and it holds the time of the sync |
| PathRules.EvaluateRoots | wks/api/monitor/_evaluate_roots.py:4-16 | the walk decides by the nearest ancestor-or-self in either set, exclude winning ties, with the reason |
| PathRules.MatchGlobs | wks/api/monitor/matches_glob.py:5-15 | some pattern that is not empty matches the whole path or the name |
| PathRules.PosixSteps | wks/api/monitor/matches_glob.py:8 | a path is written as its parent, a slash and its name, the root as a slash |
| PathRules.FindExcludedParent | wks/api/monitor/explain_path.py:39-43 | the nearest ancestor with an excluded name |
| PathRules.FindExclusion | wks/api/monitor/explain_path.py:37-51 | the first rule that excludes the path: nearest named parent, its own name, a pattern |
| PathRules.FindOverride | wks/api/monitor/explain_path.py:53-62 | the rule that brings an excluded path back |
| PathRules.ExplainPath | wks/api/monitor/explain_path.py:11-64 | the verdict is the declarative one, every note of the trace is true, and how many there are |
| PathRules.VerdictExactly | wks/api/monitor/explain_path.py:11-64 | the verdict in terms of the six lists alone: outside the program's directory, an included path as the nearest listed one at or above, and when a component's name or a pattern excludes it, its parent directory's name or a pattern brings it back |
| PathRules.VerdictMonotone | wks/api/monitor/explain_path.py:11-64 | monotone in each include list and antitone in each exclude list, for every depth and every glob |
| PathRules.OnlyNearestRootCounts | wks/api/monitor/_evaluate_roots.py:4-16 | roots above the nearest one, and roots off the path, make no difference |
| NestedDicts.Walk | wks/api/config/cmd_set.py:18-21 | the walk to the parent, making dictionaries on the way, makes no difference to the set that follows |
| NestedDicts.DeepSet | wks/api/config/cmd_set.py:17-22 | the walk and the assignment on the objects compute the set on values |
| NestedDicts.DeepDelete | wks/api/config/cmd_set.py:25-30 | the walk on the objects computes the delete on values; not found leaves every object as it was |
| NestedConfig.LookupSet | wks/api/config/cmd_set.py:17-22 | lookup after a set gives the value |
| NestedConfig.SetLeavesOthers | wks/api/config/cmd_set.py:17-22 | paths that do not run through each other do not disturb each other |
| NestedConfig.SetOverwrites | wks/api/config/cmd_set.py:17-22 | a later set of the same path overwrites |
| NestedConfig.SetsCommute | wks/api/config/cmd_set.py:17-22 | sets of paths apart from each other commute |
| NestedConfig.SetIsIdleExactly | wks/api/config/cmd_set.py:17-22 | a set changes nothing if and only if the value is there already |
| NestedConfig.DeleteFindsExactly | wks/api/config/cmd_set.py:25-30 | True if and only if the entry was there; False leaves the dictionary untouched |
| NestedConfig.DeleteRemovesOnly | wks/api/config/cmd_set.py:25-30 | the entry is gone and paths apart from it are unchanged |
| NestedConfig.DeleteAfterSet | wks/api/config/cmd_set.py:17-30 | a delete after a set finds the entry and forgets the value |
| NestedConfig.SetDeleteRestoresExactly | wks/api/config/cmd_set.py:17-30 | set then delete restores the dictionary if and only if the entry was absent from a dictionary that was there |
| NestedConfig.DeleteSetRestores | wks/api/config/cmd_set.py:17-30 | delete then set of the old value restores the dictionary |

## Left out

- Command line, REST and SSE layers, tool discovery, services, start-up of the database, daemon lock: plumbing over other programs.
- Embedding models, BM25, document converters, tree parsers: matrices, contents and engine outputs are inputs.
- Floating-point rounding, and the rounding of reported scores to four or six digits.
- The transform cache's own prune command, and diff results registered in the cache: they use another key space.
- Loss of cache.json during a run (the counter would restart from zero), and other processes writing it.
- The engine's dependence on a file's extension, and output paths: copies and hard links of cache files to a caller's path, which a caller could write through.
- Removal of emptied artifact directories, and the graph records a transform writes.
- TransformController.Controller.ResolveCacheFile: which of several files of one key is taken is not fixed, as the directory listing does not fix it.
- Which engine is chosen for a file (a test of its first 8192 bytes): engines are given.
- SearchRuntime.Runtime.LoadConfig: the configuration's text stands for the parsed configuration; failures to parse are not modelled.
- The derived search structures (token corpus, matrix, path segments): functions of the contents that are remembered.
- Labels, order consistency and final score of similar documents: each is one formula over the matching.
- The error for a similarity array that is not two-dimensional: the model's matrix always is.
- The `rrf_k` argument is its default, 60, and k in rank fusion is a natural number, as the strategy search passes them.
- SearchStability.MoreResultsExactly: for ten thousand results or more nothing is claimed of exactly one semantic index among lexical ones; the 10000 chunks a lexical index ranks are then too few for the example.
- Chunks a text search finds equally good, whose order the database does not fix: what it finds is a function of the number asked for.
- SearchCache.TornAnswerExactly: the later lookup itself is undisturbed.
- Error branches and warnings of the strategy search; what the ranking functions of one index compute.
- Vault files: which files are listed, encodings, failed writes. The Markdown `[text](url)` branch of the parser, and the columns of links, which a rename shifts.
- Targets with brackets, bars, back slashes, line breaks or padding: the pattern escapes the old target, but the new one is read as a replacement template, so a back slash in it is an escape.
- RenamePreserves.RenameExactly: for texts in which the pattern matches elsewhere than at a link there is no general statement, only the two lemmas that show the rename go wrong there.
- RenamePreserves.RenameBackExactly: stated for texts in which the opening and either target stand only where a link begins.
- Heartbeat.CallShowsItsWait: without a positive interval the call runs the function directly after one yield, which is not modelled.
- The formatting of elapsed seconds, and clocks: a timeout may come whenever the queue is empty.
- Digits and white space beyond ASCII in a Content-Length value; the text stream's newline translation; JSON values that are not objects when writing.
- Framing.SessionRoundTrip: payloads are one line of printable ASCII in braces, which is what the writer's JSON encoder gives for a message.
- Ties of priority in the database's sort are broken by collection order, which the database does not promise. Exceptions inside enforcement, which are swallowed, and other writers of the collection.
- The order in which a sync takes the files (by modification time): the model holds for every order.
- Configuration lists are taken with their paths already normalised.
- Validation and saving after a configuration change, and parsing of its value.
- NestedDicts.DeepSet: the value given is a nested dictionary of its own, not part of the one it is set into.
