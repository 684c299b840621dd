# A verified model of a hybrid retrieval engine and its companion tools

This is a Dafny model of the core of a course repository that builds applications on a large language model.

The centre of the model is the hybrid document-retrieval engine:
- a lexical BM25 index with a lazily rebuilt IDF table;
- a dense vector index that searches by brute-force nearest neighbour under cosine or Euclidean distance;
- a retriever that puts each query to every index, asking for `5k` hits from each. It fuses the ranked lists by Reciprocal Rank Fusion (RRF), keyed on document identity, and can hand the fused top `k` to a reranker that answers with document ids.

Around it are smaller, self-contained pieces:
- the text-editor tool: its schema table, its path check, the `view`/`str_replace`/`insert`/`create` logic over a file-system snapshot, and the choice of the backup `undo_edit` restores;
- the web-search tool: model validation, location lookup, schema assembly and its lazily filled configuration caches;
- the prompt evaluator: template rendering, the score class of a report row, and the report's pass rate and average;
- the tool dispatcher and its `tool_result` blocks;
- the extension-to-MIME-type lookup of the file upload;
- the loop that builds a context window for each chunk before indexing.

Modules:
- `Values`: exceptions, `Result`/`Option`/`Outcome`, Python values, and documents. A document is a class object, so two handles to it are the same Python dict.
- `Text`: the Python string operations used.
- `Sorting`: `list.sort`, modelled as a stable sort.
- `RealMath`: `log`/`exp`/`sqrt`, carried as arbitrary functions.
- `Bm25`, `Dense`, `Fusion`, `Retrieval`: the retrieval engine.
- `TextEditor`, `WebSearch`, `PromptEval`, `ToolUse`, `FileUpload`, `RagContext`: the tools and helpers.

Classes model the objects whose fields the source updates: `BM25Index`, `VectorIndex`, `Retriever`, `TextEditorTool`, `WebSearchTool` and `Document`. The methods of `BM25Index`, `VectorIndex`, `TextEditorTool` and `WebSearchTool` state their whole new state. The `Retriever` methods state each index's new content: its documents and, for each one, its token list or its vector. The BM25 lengths and document frequencies follow from the token lists by the index invariant. They also state which document dictionaries may change, and how. The properties are proved as lemmas about the specification functions those methods are tied to.

## Model

| member | source | states |
|---|---|---|
| `Values.CheckDocument` | rag/VectorDB/BM25Index.py:60-69 | The argument check of `add_document`: a non-dict raises TypeError, a dict without `content` raises ValueError, non-string content raises TypeError; otherwise the result is the content string (both directions). |
| `Values.NumericList` | rag/VectorDB/VectorIndex.py:84-87 | A value passes the "list of numbers" test iff it is a list whose every item is an int, float or bool; it then yields those numbers, one per item. |
| `Values.FloatList` | rag/VectorDB/VectorIndex.py:34-35 | A list of floats produced by an embedding function passes the list-of-numbers test and gives back the same numbers. |
| `Values.Document.constructor` | rag_context.py:40 | A new document dictionary holds exactly the given fields. |
| `RealMath.SqrtPositive` | rag/VectorDB/VectorIndex.py:117-118 | Under the square-root laws, the root of a positive number is positive. |
| `Text.Lower` | rag/VectorDB/BM25Index.py:26 | `lower()` keeps the length, lowers each character and leaves no upper-case letter. |
| `Text.SplitOn` | tools/TextEditorTool.py:236 | `split` on one character gives at least one part, and no part contains the separator. |
| `Text.JoinSplit` | tools/TextEditorTool.py:249-254 | Joining the parts of a split with the separator gives back the original string. |
| `Text.SplitJoin` | tools/TextEditorTool.py:249-254 | Splitting a join of separator-free parts gives back the parts. |
| `Text.SplitOnConcat` | tools/TextEditorTool.py:236 | Splitting `x + sep + y` is splitting `x` and `y` separately and concatenating the results. |
| `Text.SplitNoSep` | tools/TextEditorTool.py:236 | A string without the separator splits into itself alone. |
| `Text.LexLeTotal` | tools/TextEditorTool.py:167 | Python's string order is total. |
| `Text.LexLeReflexive` | tools/TextEditorTool.py:167 | Python's string order is reflexive. |
| `Text.LexLeTrans` | tools/TextEditorTool.py:167 | Python's string order is transitive. |
| `Text.LexLeAntisymmetric` | tools/TextEditorTool.py:167 | Python's string order is antisymmetric. |
| `Text.CountZeroIffAbsent` | tools/TextEditorTool.py:173-187 | `content.count(old_str)` is zero iff `old_str` occurs nowhere in `content`. |
| `Text.ReplaceAbsent` | tools/TextEditorTool.py:318 | `replace` with a pattern that does not occur changes nothing. |
| `Text.ReplaceUnique` | tools/TextEditorTool.py:318 | With exactly one occurrence, `replace` rewrites that occurrence and keeps the text before and after it. |
| `Text.NatToString` | tools/TextEditorTool.py:245 | `str(n)` is a non-empty string of decimal digits, without a leading zero unless `n` is 0, that reads back as `n`. |
| `Text.SliceBound` | tools/TextEditorTool.py:241 | A slice bound within `[0, len]` is kept, one above is `len`, a negative one within `-len` counts from the end, and one below `-len` is 0. |
| `Text.PySlice` | tools/TextEditorTool.py:241 | `s[i:j]` has `max(0, b - a)` elements for the clamped bounds `a` and `b`, and its `k`-th element is `s[a + k]`. |
| `Sorting.Insert` | rag/VectorDB/VectorIndex.py:79 | One insertion step adds exactly the one element. |
| `Sorting.InsertSorted` | rag/VectorDB/VectorIndex.py:79 | Inserting into a key-ordered sequence keeps it key-ordered. |
| `Sorting.SortBy` | rag/VectorDB/VectorIndex.py:79 | `list.sort(key=...)` yields a permutation of its input (same length, same multiset) in ascending key order. |
| `Sorting.SortByStable` | rag/VectorDB/VectorIndex.py:79 | The sort is stable: the elements with any one key keep their input order. |
| `Sorting.SortBySortedIdentity` | rag/VectorDB/BM25Index.py:137 | Sorting an already ordered list leaves it unchanged. |
| `Sorting.TakeIsSmallest` | rag/VectorDB/VectorIndex.py:81 | Cutting an ordered list with `[:n]` keeps nothing with a larger key than anything dropped, and loses nothing. |
| `Sorting.SortByMembers` | rag/retriver/MultipleIndex.py:127 | Sorting keeps exactly the same members. |
| `Sorting.InsertWithKey` | rag/VectorDB/VectorIndex.py:79 | One insertion step puts the new element in front of the elements with its key, and moves no other element of that key. |
| `Bm25.SplitNonWord` | rag/VectorDB/BM25Index.py:27 | `re.split(r"\W+", s)` gives at least one piece, and each piece has only word characters; where it splits is stated by `Bm25.SplitNonWordSeparator` and `Bm25.SplitNonWordWord`. |
| `Bm25.NonEmpty` | rag/VectorDB/BM25Index.py:28 | Dropping empty tokens keeps only non-empty pieces of the input; that it keeps each of them once and in order is `Bm25.NonEmptyAppend`. |
| `Bm25.NonEmptyAppend` | rag/VectorDB/BM25Index.py:28 | Filtering `a + b` gives the filtered `a` followed by the filtered `b`. |
| `Bm25.SplitNonWordSeparator` | rag/VectorDB/BM25Index.py:27-28 | Across a non-word character, the non-empty pieces of `x + [c] + y` are those of `x` followed by those of `y`. |
| `Bm25.SplitNonWordWord` | rag/VectorDB/BM25Index.py:27 | A text of word characters only is a single piece. |
| `Bm25.DefaultTokenizeAtSeparator` | rag/VectorDB/BM25Index.py:25-28 | The default tokenizer splits at every non-word character: the tokens of `x + [c] + y` are those of `x` followed by those of `y`. |
| `Bm25.DefaultTokenizeWord` | rag/VectorDB/BM25Index.py:25-28 | A non-empty run of word characters is one token, lower-cased. |
| `Bm25.SplitNonWordChars` | rag/VectorDB/BM25Index.py:27 | The split pieces spell out exactly the word characters of the text, in order. |
| `Bm25.NonEmptyConcat` | rag/VectorDB/BM25Index.py:28 | Dropping empty tokens loses no character. |
| `Bm25.WordCharsLower` | rag/VectorDB/BM25Index.py:26-27 | Lower-casing keeps the number of word characters and leaves none upper-case. |
| `Bm25.DefaultTokenizeSpec` | rag/VectorDB/BM25Index.py:25-28 | Every default token is a non-empty run of lower-case word characters, and together the tokens spell exactly the word characters of the lower-cased text. |
| `Bm25.DefaultTokenizeEmpty` | rag/VectorDB/BM25Index.py:120-122 | The default tokenizer gives no tokens iff the text has no word character (so such a query answers `[]`). |
| `Bm25.IdfTable` | rag/VectorDB/BM25Index.py:41-46 | The IDF table has exactly the keys of the frequency table, each with `log((N - df + 0.5)/(df + 0.5) + 1)`. |
| `Bm25.IdfMatchesUnique` | rag/VectorDB/BM25Index.py:41-46 | Only one table meets that description. |
| `Bm25.DocCountAppend` | rag/VectorDB/BM25Index.py:30-39 | Adding a token list raises a term's document count by one iff the term is in it; the vocabulary grows by that list's tokens. |
| `Bm25.FreqsAddedMatch` | rag/VectorDB/BM25Index.py:33-37 | The frequency update for a new document keeps the table equal to "keys = vocabulary, value = number of documents containing the term". |
| `Bm25.DocCountVocabulary` | rag/VectorDB/BM25Index.py:33-37 | A term is in the vocabulary iff its document count is positive, and the count never exceeds the number of documents. |
| `Bm25.DocCountIsCount` | rag/VectorDB/BM25Index.py:33-37 | A term's document frequency is the number of documents whose token list contains it; repeats within a document count once. |
| `Bm25.IdfOfPositive` | rag/VectorDB/BM25Index.py:45 | With `log(x) > 0` for `x > 1` and `df <= N`, the IDF is positive. |
| `Bm25.IdfTablePositive` | rag/VectorDB/BM25Index.py:41-46 | After a build, every IDF in the table is positive. |
| `Bm25.Known` | rag/VectorDB/BM25Index.py:85-86 | Every kept query token has an IDF, and every token with an IDF is kept as often as it occurs in the query. |
| `Bm25.KnownConcat` | rag/VectorDB/BM25Index.py:85-86 | Filtering distributes over concatenation, so the kept tokens stay in query order. |
| `Bm25.UnknownTokensIgnored` | rag/VectorDB/BM25Index.py:84-86 | A query token absent from the IDF table contributes nothing: the score equals that of the known tokens alone. |
| `Bm25.RepeatedTokenScore` | rag/VectorDB/BM25Index.py:84-95 | A query token repeated `n` times contributes `n` times its term score. |
| `Bm25.AbsentTermScoresZero` | rag/VectorDB/BM25Index.py:89-95 | A term that does not occur in the document (tf = 0) contributes zero. |
| `Bm25.PresentTermScoresPositive` | rag/VectorDB/BM25Index.py:88-95 | With `k1 >= 0`, `0 <= b <= 1`, a positive average length and a positive IDF, a present term contributes a positive amount (no division error). |
| `Bm25.TermScoreDefined` | rag/VectorDB/BM25Index.py:91-95 | With `k1 >= 0`, `0 <= b <= 1` and a positive average length the divisor is positive, so a term's contribution never raises ZeroDivisionError, whatever `tf`. |
| `Bm25.TermScoreMonotone` | rag/VectorDB/BM25Index.py:89-95 | For a fixed document length, a non-negative IDF, a positive average length, `k1 >= 0` and `0 <= b <= 1` (the defaults 1.5 and 0.75 included), a larger term frequency (a doubled one, say) contributes at least as much: BM25 saturates but never decreases in `tf`. |
| `Bm25.QueryScoreTfMonotone` | rag/VectorDB/BM25Index.py:80-97 | Of two documents of the same length, the one holding a known query token at least as often gets at least the score of the other for that one-token query. |
| `Bm25.AllScores` | rag/VectorDB/BM25Index.py:124-128 | The score loop, when no term raises, gives one score per document. |
| `Bm25.AllScoresAt` | rag/VectorDB/BM25Index.py:124-126 | Each document's entry is its BM25 score for the query. |
| `Bm25.AllScoresErrExtends` | rag/VectorDB/BM25Index.py:124-126 | An exception raised while scoring a prefix of the documents is the result of the whole loop. |
| `Bm25.QueryScoreErrExtends` | rag/VectorDB/BM25Index.py:84-95 | A term that raises ends the document's score with that error. |
| `Bm25.Candidates` | rag/VectorDB/BM25Index.py:124-128 | The kept `(score, doc)` pairs are no more than the documents. |
| `Bm25.CandidatesSpec` | rag/VectorDB/BM25Index.py:127-128 | A pair is kept iff it is some document's score and that score exceeds `1e-9` (both directions). |
| `Bm25.AllScoresOk` | rag/VectorDB/BM25Index.py:124-128 | When every document's score is defined, the scoring loop yields exactly those scores, one per document in order. |
| `Bm25.OneTokenAllScores` | rag/VectorDB/BM25Index.py:84-97 | A one-token query scores each document by that token's contribution alone, and never raises. |
| `Bm25.HeldTokenKnown` | rag/VectorDB/BM25Index.py:33-46 | After a build, a token that some document holds has an IDF, and it is positive. |
| `Bm25.AbsentTokenScore` | rag/VectorDB/BM25Index.py:89-95 | A document without the token gets exactly 0 from it. |
| `Bm25.HeldTokenScore` | rag/VectorDB/BM25Index.py:89-95 | A document holding a token with a positive IDF gets a positive amount from it. |
| `Bm25.SoleScores` | rag/VectorDB/BM25Index.py:84-97 | For a one-token query whose token only document `j` holds, document `j` scores positively and every other document scores exactly 0. |
| `Bm25.CandidatesOnly` | rag/VectorDB/BM25Index.py:127-128 | When all scores but the `j`-th are zero, the kept pairs are the `j`-th document alone if its score exceeds `1e-9`, and nothing otherwise. |
| `Bm25.SoleMatchingDocument` | rag/VectorDB/BM25Index.py:84-128 | A one-token query whose token occurs in exactly one stored document: after a build, that document is the only one with a non-zero score (a positive one), and it is the only pair the search can keep. |
| `Bm25.TopByScore` | rag/VectorDB/BM25Index.py:130-133 | The sort by descending raw score followed by `[:k]` keeps `min(max(k,0), n)` pairs. |
| `Bm25.Normalize` | rag/VectorDB/BM25Index.py:132-135 | Each kept pair becomes `(doc, exp(-alpha * raw))`, in the same order. |
| `Bm25.RankingShape` | rag/VectorDB/BM25Index.py:130-139 | A search answers exactly `min(k, #candidates)` hits, in ascending normalised score. |
| `Bm25.TopByScoreSelects` | rag/VectorDB/BM25Index.py:130-133 | The kept pairs are the top `k` by raw score: kept and dropped together are all candidates, and nothing dropped outscores anything kept. |
| `Bm25.RankingSound` | rag/VectorDB/BM25Index.py:124-139 | Every hit is a stored document whose raw score exceeds `1e-9`, paired with `exp(-alpha * raw)`. |
| `Bm25.RankingMember` | rag/VectorDB/BM25Index.py:130-139 | Every hit comes from a candidate pair, with that pair's normalised score. |
| `Bm25.ScaleMonotone` | rag/VectorDB/BM25Index.py:134 | For `alpha >= 0` and an increasing `exp`, a larger raw score gives a smaller or equal normalised score. |
| `Bm25.TopDescending` | rag/VectorDB/BM25Index.py:130 | The kept pairs are in descending raw score. |
| `Bm25.RankingOrder` | rag/VectorDB/BM25Index.py:130-139 | For `alpha >= 0` and an increasing `exp`, the final sort changes nothing: the hits come in descending raw score, which is ascending normalised score. |
| `Bm25.SumZero` | rag/VectorDB/BM25Index.py:55 | `sum(doc_len)` is zero iff every document has no tokens. |
| `Bm25.AvgLenZero` | rag/VectorDB/BM25Index.py:117-118 | The average length is zero iff every document has no tokens (so a search of such an index answers `[]`). |
| `Bm25.BM25Index.constructor` | rag/VectorDB/BM25Index.py:7-23 | A new index is empty and unbuilt, with the given `k1` and `b`; without a tokenizer it uses the default one. |
| `Bm25.BM25Index.Len` | rag/VectorDB/BM25Index.py:141-142 | `len(index)` is the number of documents, which is also the length of the token lists and the length list. |
| `Bm25.BM25Index.UpdateStatsAdd` | rag/VectorDB/BM25Index.py:30-39 | The loop appends the token count, raises each distinct token's document frequency by one (new tokens start at one), and marks the index stale. |
| `Bm25.BM25Index.CalculateIdf` | rag/VectorDB/BM25Index.py:41-46 | The loop rebuilds the IDF table: exactly the keys of the frequency table, each with its IDF for the current `N`. |
| `Bm25.BM25Index.BuildIndex` | rag/VectorDB/BM25Index.py:48-57 | After a build, the average length is `sum(doc_len)/N` (0 when empty), the IDF table matches the frequencies, and the index is marked fresh. |
| `Bm25.BM25Index.AddDocument` | rag/VectorDB/BM25Index.py:59-75 | A failed check raises its exception and changes nothing. Otherwise the document, its tokens and its length are appended, the frequencies are updated, and the index is marked stale; the three lists stay parallel and the frequency invariant is kept. |
| `Bm25.BM25Index.ComputeBm25Score` | rag/VectorDB/BM25Index.py:77-97 | The loop computes the document's score: the sum over the known query tokens, in order, of `idf*tf*(k1+1)/(tf + k1*(1-b+b*len/avg) + 1e-9)`, or the ZeroDivisionError raised. |
| `Bm25.BM25Index.ScoreDocuments` | rag/VectorDB/BM25Index.py:124-128 | The loop gives the `(score, doc)` pairs above `1e-9` in document order, or the first error. |
| `Bm25.BM25Index.RankHits` | rag/VectorDB/BM25Index.py:130-137 | The sort, cut, normalisation and re-sort give the ranking function. |
| `Bm25.BM25Index.NormalizeAll` | rag/VectorDB/BM25Index.py:132-135 | The loop maps each kept pair to `(doc, exp(-alpha*raw))`. |
| `Bm25.BM25Index.Search` | rag/VectorDB/BM25Index.py:99-139 | An empty index answers `[]` before any argument check. Otherwise a non-string query raises TypeError and `k <= 0` raises ValueError, both with nothing changed. Else a stale index is rebuilt, and the answer is the ranking of the stored documents (`[]` when the average length is 0 or the query has no tokens). The stored documents and statistics do not change. |
| `Dense.EuclideanDistance` | rag/VectorDB/VectorIndex.py:105-110 | Vectors of different lengths raise ValueError; otherwise there is a value. |
| `Dense.DotProduct` | rag/VectorDB/VectorIndex.py:112-115 | Vectors of different lengths raise ValueError; otherwise there is a value. |
| `Dense.CosineDistance` | rag/VectorDB/VectorIndex.py:120-136 | Vectors of different lengths raise ValueError; otherwise there is a value. |
| `Dense.SquaredDistanceNonNegative` | rag/VectorDB/VectorIndex.py:110 | The sum of squared differences is non-negative. |
| `Dense.SquaredDistanceSelf` | rag/VectorDB/VectorIndex.py:110 | The sum of squared differences of a vector with itself is zero. |
| `Dense.DotSelfNonNegative` | rag/VectorDB/VectorIndex.py:118 | A vector's dot product with itself is non-negative. |
| `Dense.EuclideanLaws` | rag/VectorDB/VectorIndex.py:105-110 | Euclidean distance is non-negative, and a vector is at distance 0 from itself. |
| `Dense.CosineLaws` | rag/VectorDB/VectorIndex.py:120-136 | Cosine distance is within `[0, 2]`; it is 0 when both magnitudes are zero and 1 when exactly one is. |
| `Dense.CosineSelf` | rag/VectorDB/VectorIndex.py:120-136 | A vector of non-zero magnitude is at cosine distance 0 from itself. |
| `Dense.CosineOrthogonal` | rag/VectorDB/VectorIndex.py:132-136 | Orthogonal vectors of non-zero magnitude are at cosine distance 1. |
| `Dense.Distances` | rag/VectorDB/VectorIndex.py:74-77 | There is one `(distance, doc)` pair per stored vector. |
| `Dense.DistancesAt` | rag/VectorDB/VectorIndex.py:74-77 | The i-th pair is the i-th vector's distance from the query, with the i-th document. |
| `Dense.NearestShape` | rag/VectorDB/VectorIndex.py:79-81 | A search answers `min(k, n)` hits, in ascending distance. |
| `Dense.NearestSelects` | rag/VectorDB/VectorIndex.py:79-81 | Kept and dropped together are all pairs, and nothing dropped is nearer than anything kept. |
| `Dense.NearestSound` | rag/VectorDB/VectorIndex.py:74-81 | Every hit is a stored document with its distance from the query. |
| `Dense.NearestStable` | rag/VectorDB/VectorIndex.py:79 | Documents at the same distance keep their insertion order. |
| `Dense.VectorIndex.Init` | rag/VectorDB/VectorIndex.py:10-16 | A new index is empty, with no dimension, the given metric and the given embedding function. |
| `Dense.VectorIndex.New` | rag/VectorDB/VectorIndex.py:5-16 | A metric other than "cosine" or "euclidean" raises ValueError (both directions); otherwise the index is fresh and empty, with that metric. |
| `Dense.VectorIndex.Len` | rag/VectorDB/VectorIndex.py:138-139 | `len(index)` is the number of vectors, which is the number of documents. |
| `Dense.VectorIndex.AddVector` | rag/VectorDB/VectorIndex.py:83-103 | The checks come in order: list of numbers, dict, `content`, dimension. A failure raises and changes nothing. Success appends a copy of the vector and the document, and the first vector fixes the dimension. The lists stay parallel and every vector has the dimension. |
| `Dense.VectorIndex.AddDocument` | rag/VectorDB/VectorIndex.py:18-35 | A missing embedding function raises ValueError, then the document checks follow, all before the embedding is computed and with nothing changed. An exception of the embedding function propagates with nothing changed. A dimension mismatch raises ValueError with nothing changed. Otherwise the embedding and the document are appended. |
| `Dense.VectorIndex.AllDistances` | rag/VectorDB/VectorIndex.py:74-77 | The loop computes the distance pairs in insertion order. |
| `Dense.VectorIndex.Search` | rag/VectorDB/VectorIndex.py:37-81 | The checks come in order: an empty index answers `[]`; then a string query without an embedding function raises ValueError, and an exception of the embedding function propagates; a non-string, non-numeric-list query raises TypeError; a length mismatch raises ValueError; `k <= 0` raises ValueError. Otherwise the answer is the `k` nearest stored documents with their distances. |
| `Fusion.FlattenMembers` | rag/retriver/MultipleIndex.py:106-107 | A document is met by the fusion loop iff it is in some index's list. |
| `Fusion.Distinct` | rag/retriver/MultipleIndex.py:109-113 | The first-seen order holds each document met exactly once and nothing else. |
| `Fusion.DistinctMembers` | rag/retriver/MultipleIndex.py:109-113 | A document is in the first-seen order iff it was met. |
| `Fusion.DistinctSnoc` | rag/retriver/MultipleIndex.py:109-113 | Meeting one more document extends the first-seen order iff that document is new. |
| `Fusion.RankIn` | rag/retriver/MultipleIndex.py:107-114 | A document's rank in a list is the 1-based position of its last occurrence, or "infinite" (0) iff it is absent. |
| `Fusion.RankInSnoc` | rag/retriver/MultipleIndex.py:114 | One more hit sets that document's rank to its position and leaves the others. |
| `Fusion.RankVector` | rag/retriver/MultipleIndex.py:110-114 | A document's ranks hold one entry per index: its rank in that index's list. |
| `Fusion.FusedScores` | rag/retriver/MultipleIndex.py:116-122 | The scored list pairs each distinct document, in first-seen order, with its RRF score, the sum of `1/(k_rrf + r)` over the lists where it was found. |
| `Fusion.PositiveKeeps` | rag/retriver/MultipleIndex.py:124-126 | The `score > 0` filter keeps exactly the positively scored pairs. |
| `Fusion.TopPrefix` | rag/retriver/MultipleIndex.py:129 | `s[:n]` is the first `min(n, len)` elements. |
| `Fusion.RrfTermBounds` | rag/retriver/MultipleIndex.py:117 | Each list's contribution is non-negative, and positive for a finite rank. |
| `Fusion.RrfTermMonotone` | rag/retriver/MultipleIndex.py:117 | A better (smaller) rank contributes at least as much. |
| `Fusion.RrfSumNonNegative` | rag/retriver/MultipleIndex.py:116-117 | A fused score is non-negative. |
| `Fusion.RrfSumPositive` | rag/retriver/MultipleIndex.py:116-117 | A document found in at least one list has a positive fused score. |
| `Fusion.RrfDominates` | rag/retriver/MultipleIndex.py:116-117 | A document found wherever another is found, at an equal or better rank, scores at least as much; found in one more list, it scores strictly more. |
| `Fusion.RrfSwapEqual` | rag/retriver/MultipleIndex.py:116-117 | Over the two lists `[x, y]` and `[y, x]`, the distinct documents x and y get equal fused scores. |
| `Fusion.RrfBothBeatsOne` | rag/retriver/MultipleIndex.py:116-117 | A document at rank `r` in both of two lists outscores one at rank `r` in only one of them. |
| `Fusion.FiltersNothing` | rag/retriver/MultipleIndex.py:124-126 | The `score > 0` filter drops nothing, since every document met has a positive score. |
| `Fusion.AllPositive` | rag/retriver/MultipleIndex.py:124-126 | A list whose every score is positive passes the filter unchanged. |
| `Fusion.SortedMember` | rag/retriver/MultipleIndex.py:127 | Every sorted hit is a document met, with its fused score. |
| `Fusion.FusedDistinct` | rag/retriver/MultipleIndex.py:119-122 | The scored list holds each document once. |
| `Fusion.SortedDistinct` | rag/retriver/MultipleIndex.py:127 | Sorting keeps the documents distinct. |
| `Fusion.TakeKeeps` | rag/retriver/MultipleIndex.py:129 | A prefix keeps the descending order, the distinctness and the members. |
| `Fusion.SortedDescending` | rag/retriver/MultipleIndex.py:127 | The `reverse=True` sort puts the highest score first. |
| `Fusion.FuseShape` | rag/retriver/MultipleIndex.py:119-129 | Without a reranker the result has exactly `min(k, #documents met)` hits, highest score first, each document once, each with its RRF score. |
| `Fusion.FuseKeepsBest` | rag/retriver/MultipleIndex.py:127-129 | Nothing left out of the top `k` scores more than anything kept. |
| `Fusion.FuseStable` | rag/retriver/MultipleIndex.py:127 | Ties keep first-seen order (index order, then rank). |
| `Fusion.RrfTermFirst` | rag/retriver/MultipleIndex.py:116-117 | Rank 1 contributes strictly more than any other rank, and more than absence. |
| `Fusion.RrfFirstEverywhere` | rag/retriver/MultipleIndex.py:116-117 | Over at least one list, a document ranked 1 in every list scores strictly more than one ranked 1 in none. |
| `Fusion.HeadRanks` | rag/retriver/MultipleIndex.py:105-114 | A document that heads a list and does not recur in it has rank 1 there; any other document does not. |
| `Fusion.HeadOutscores` | rag/retriver/MultipleIndex.py:105-122 | A document heading every list (and not recurring) has a strictly higher fused score than every other document. |
| `Fusion.MetIsScored` | rag/retriver/MultipleIndex.py:105-122 | A document met in some list is among the scored pairs, with its fused score. |
| `Fusion.SortedHeadHighest` | rag/retriver/MultipleIndex.py:127 | After the descending sort, the first pair has the highest score. |
| `Fusion.FuseOne` | rag/retriver/MultipleIndex.py:124-129 | With `k = 1` the result is the single first pair of the sorted list. |
| `Fusion.FuseAgreedHead` | rag/retriver/MultipleIndex.py:105-129 | When one document heads every index's list and occurs nowhere further down, the fused top 1 is that document with its fused score. |
| `Fusion.LastIndex` | rag/retriver/MultipleIndex.py:142 | The id lookup maps an id to the last candidate carrying it, and has no entry iff no candidate carries it. |
| `Fusion.LastIndexSnoc` | rag/retriver/MultipleIndex.py:142 | A later candidate with the same id overwrites the earlier entry. |
| `Fusion.LastIndexDistinct` | rag/retriver/MultipleIndex.py:142 | With distinct ids, the lookup maps each candidate's id to that candidate. |
| `Fusion.IdAssignedTwice` | rag/retriver/MultipleIndex.py:78-81 | Assigning ids a second time changes nothing, so the fields held before the first assignment survive both. |
| `Fusion.IdsOf` | rag/retriver/MultipleIndex.py:142 | The candidates' ids, one per candidate, in order. |
| `Fusion.Remap` | rag/retriver/MultipleIndex.py:145-154 | The reranked result has no more hits than the reranker returned ids. |
| `Fusion.RemapConcat` | rag/retriver/MultipleIndex.py:148-152 | The output follows the reranker's order: remapping a concatenation of id lists concatenates the remapped parts. |
| `Fusion.RemapSnoc` | rag/retriver/MultipleIndex.py:148-152 | One more returned id adds the candidate it names, or nothing if it names none (unknown ids are skipped). |
| `Fusion.RemapOne` | rag/retriver/MultipleIndex.py:148-152 | A single id gives the candidate it names, or nothing. |
| `Fusion.RemapSound` | rag/retriver/MultipleIndex.py:145-152 | Every reranked hit is a candidate with its fused score, named by an id the reranker returned. |
| `Fusion.RemapDropsOmitted` | rag/retriver/MultipleIndex.py:148-152 | A candidate whose id the reranker does not return is dropped. |
| `Fusion.RemapIdentity` | rag/retriver/MultipleIndex.py:145-154 | A reranker that returns the candidates' own distinct ids in order gives the fused ranking back unchanged. |
| `Fusion.RemapPrefix` | rag/retriver/MultipleIndex.py:148-152 | A prefix of the candidates' own ids gives back that prefix of the ranking. |
| `Retrieval.AddToIndex` | rag/retriver/MultipleIndex.py:84 | `index.add_document(doc)` either raises with the index unchanged, or appends the same document object to it, with the document's tokens (BM25) or embedding (dense). |
| `Retrieval.Content` | rag/VectorDB/BM25Index.py:71-75 | What an index holds that its answers depend on: its documents, which are the index's own list, and their token lists or vectors. |
| `Retrieval.Texts` | rag/VectorDB/BM25Index.py:67 | The `content` text of each document, in order. |
| `Retrieval.Extended` | rag/VectorDB/BM25Index.py:71-75 | An index that takes documents holds the documents it held followed by the new ones, and keeps its kind. |
| `Retrieval.ExtendedAppends` | rag/VectorDB/VectorIndex.py:34-35 | Taking documents keeps the token lists (or vectors) held before and appends, for each new text in order, its tokens under the index's tokenizer (or its embedding). |
| `Retrieval.ExtendedNone` | rag/retriver/MultipleIndex.py:88-89 | An index that takes no documents holds what it held. |
| `Retrieval.ExtendedSnoc` | rag/retriver/MultipleIndex.py:88-89 | Taking some documents and then one more is taking all of them at once. |
| `Retrieval.ExtendedStep` | rag/retriver/MultipleIndex.py:88-89 | Taking the first `t` documents of a list and then document `t` is taking its first `t + 1`. |
| `Retrieval.AddAllToIndex` | rag/retriver/MultipleIndex.py:88-89 | One index takes the documents in order until one raises; it then holds its old content extended by exactly the documents it took, a prefix of the list, and all of them iff none raised. |
| `Retrieval.LexicalHitStored` | rag/VectorDB/BM25Index.py:124-139 | Every BM25 hit is a document the index holds. |
| `Retrieval.VectorHitStored` | rag/VectorDB/VectorIndex.py:74-81 | Every vector-index hit is a document the index holds. |
| `Retrieval.SearchIndexOnce` | rag/retriver/MultipleIndex.py:102 | `index.search(query, k)` gives the index's answer, leaves its content unchanged and so every later answer too, and every hit is a document it holds. |
| `Retrieval.AnswersKept` | rag/retriver/MultipleIndex.py:101-103 | An index whose content is unchanged gives the same answer to every query and `k`. |
| `Retrieval.Gather` | rag/retriver/MultipleIndex.py:101-103 | When no index raises, there is one hit list per index. |
| `Retrieval.GatherOk` | rag/retriver/MultipleIndex.py:101-103 | Collecting succeeds iff every index answers, and then holds the answers in index order. |
| `Retrieval.GatherFirstError` | rag/retriver/MultipleIndex.py:101-103 | The exception raised is the first index's exception. |
| `Retrieval.GatherErrExtends` | rag/retriver/MultipleIndex.py:101-103 | An index that raises after all earlier ones answered ends the collection with its exception. |
| `Retrieval.GatherOkExtends` | rag/retriver/MultipleIndex.py:101-103 | An index that answers extends the collection by its list. |
| `Retrieval.HitDocs` | rag/retriver/MultipleIndex.py:107 | Each hit list is turned into its documents, position by position. |
| `Retrieval.BuildDocRanks` | rag/retriver/MultipleIndex.py:105-114 | The nested loop gives the distinct documents in first-seen order, and each one's rank vector (1-based position of its last occurrence per list, 0 for none). |
| `Retrieval.RankList` | rag/retriver/MultipleIndex.py:107-114 | The inner loop over one list extends the first-seen order and the rank table by that list. |
| `Retrieval.RankHit` | rag/retriver/MultipleIndex.py:108-114 | One hit adds a new document with "infinite" ranks, then records its rank in the current list. |
| `Retrieval.RankStep` | rag/retriver/MultipleIndex.py:114 | Reading one hit changes only that document's rank for that list. |
| `Retrieval.Unranked` | rag/retriver/MultipleIndex.py:112 | A document not read so far has "infinite" rank everywhere. |
| `Retrieval.RecordStep` | rag/retriver/MultipleIndex.py:109-113 | A document is added to the table iff it was not met before. |
| `Retrieval.AssignId` | rag/retriver/MultipleIndex.py:78-81 | A document without an `id` gets a 4-character alphanumeric one; an existing `id` (and every other field) is kept. |
| `Retrieval.FieldsOf` | rag/retriver/MultipleIndex.py:143 | The reranker receives each candidate's current dictionary. |
| `Retrieval.DocsOf` | rag/retriver/MultipleIndex.py:132 | `docs_only` holds the candidates' documents in order. |
| `Retrieval.ScoresOfAt` | rag/retriver/MultipleIndex.py:146 | With each document once, `original_scores` maps each candidate to its fused score. |
| `Retrieval.FuseLists` | rag/retriver/MultipleIndex.py:105-129 | The fusion steps (rank table, RRF scores, filter, sort, cut to `k`) give the fused ranking, each document once and each taken from the lists. |
| `Retrieval.AssignIds` | rag/retriver/MultipleIndex.py:134-140 | Every distinct candidate ends with an `id`; existing ids are kept, missing ones generated. |
| `Retrieval.BuildLookup` | rag/retriver/MultipleIndex.py:142 | `doc_lookup` raises TypeError iff some id is unhashable (a list, dict or set); otherwise it maps each id to the last candidate holding it and has no other keys. |
| `Retrieval.RemapIds` | rag/retriver/MultipleIndex.py:145-152 | The loop over the reranker's ids gives the remapped result. |
| `Retrieval.RemapNext` | rag/retriver/MultipleIndex.py:148-152 | One step of that loop appends the candidate the lookup names, with its fused score, or nothing. |
| `Retrieval.RemapStep` | rag/retriver/MultipleIndex.py:149-152 | A lookup hit names a candidate position, and the step extends the result by that candidate. |
| `Retrieval.CandidateAt` | rag/retriver/MultipleIndex.py:150-151 | `(doc, original_scores.get(id(doc), 0.0))` is the candidate's own fused hit. |
| `Retrieval.Rerank` | rag/retriver/MultipleIndex.py:131-154 | Every candidate gets an `id` before the reranker is called (existing ids kept), and keeps it whatever follows. An unhashable id raises TypeError, and an exception of the reranker propagates. Otherwise the result follows the reranker's id order, skipping unknown ids, and each hit keeps its fused score. |
| `Retrieval.Retriever.Init` | rag/retriver/MultipleIndex.py:74-75 | The retriever holds the given indexes, in order, and the given reranker. |
| `Retrieval.Retriever.New` | rag/retriver/MultipleIndex.py:65-75 | No indexes raise ValueError (both directions); otherwise the retriever is fresh and holds the indexes and reranker. |
| `Retrieval.Retriever.AddAt` | rag/retriver/MultipleIndex.py:84 | One index takes the document, with its tokens or embedding, or raises and is unchanged; every other index keeps its content and what it answers. |
| `Retrieval.Retriever.AddDocument` | rag/retriver/MultipleIndex.py:77-84 | The caller's document gets an `id` if it has none (an existing one is kept). Then every index in order takes the same object until one raises. The indexes before it hold the document, with its tokens or embedding, and it and the later ones keep their content; its exception is the result. The stored documents grow by this document iff some index took it. |
| `Retrieval.Retriever.IdKeepsIndexes` | rag/retriver/MultipleIndex.py:78-84 | Writing the document's `id` leaves its content text, every index's content and what each index would do with the document unchanged. |
| `Retrieval.Retriever.DocumentApart` | rag/retriver/MultipleIndex.py:77-84 | A document is never one of the index objects, so writing its `id` does not disturb an index. |
| `Retrieval.Retriever.AddToAll` | rag/retriver/MultipleIndex.py:83-84 | The loop over the indexes stops at the first that raises. The indexes before it have appended the document with its tokens or embedding; the others keep their content. |
| `Retrieval.Retriever.AddDocumentsAsWritten` | rag/retriver/MultipleIndex.py:87-89 | As written, `add_documents` raises AttributeError: neither index kind defines the method it calls. |
| `Retrieval.Retriever.Holdings` | rag/retriver/MultipleIndex.py:74 | The documents held by each index, in index order. |
| `Retrieval.Retriever.StoredInAppend` | rag/retriver/MultipleIndex.py:83-84 | When the first indexes each append one document, the stored documents grow by exactly that document, and only if some index took it. |
| `Retrieval.Retriever.AddDocuments` | rag/retriver/MultipleIndex.py:87-89 | Corrected `add_documents`: every index ends with its old content extended by a prefix of the new documents, with their tokens or embeddings, and by all of them on success. |
| `Retrieval.Retriever.TookPrefixes` | rag/retriver/MultipleIndex.py:87-89 | Where the loop stops (earlier indexes took all, the current one a prefix, later ones none), every index has taken a prefix of the documents. |
| `Retrieval.Retriever.AddAllTo` | rag/retriver/MultipleIndex.py:88-89 | One index takes the documents in order until one raises, extending its content by the prefix it took; no other index changes. |
| `Retrieval.Retriever.Answers` | rag/retriver/MultipleIndex.py:101-103 | Each index's answer to the same query and `k`, in index order. |
| `Retrieval.Retriever.SearchAt` | rag/retriver/MultipleIndex.py:102 | One index answers; every index keeps its content, and the others what they answer. |
| `Retrieval.Retriever.FetchAll` | rag/retriver/MultipleIndex.py:101-103 | The list comprehension gives every index's answer in order, or the first exception. Every hit is a document its index holds, and no index's content or answers change. |
| `Retrieval.Retriever.Search` | rag/retriver/MultipleIndex.py:91-156 | A non-string query raises TypeError, `k <= 0` raises ValueError, and `k_rrf < 0` raises ValueError, all before any index is asked; nothing changes then. Then each index is asked for `5k` hits and the first exception propagates, with no document changed. Without a reranker the result is the RRF top `k` and no document changes. With one, each candidate gets an `id` (existing ids kept) while no other document changes, and the result is the reranked candidates, or the reranker's exception. Every index keeps its content and its answers, every hit is a stored document, and any document changes only by getting an `id`. |
| `Retrieval.Retriever.FuseAndRerank` | rag/retriver/MultipleIndex.py:105-154 | Fusion of the gathered lists, then the reranker if there is one. Without one, no document changes. With one, only the candidates change, each by getting an `id`. No index's content or answers change, and every hit is a stored document. |
| `Retrieval.Retriever.RerankFused` | rag/retriver/MultipleIndex.py:131-154 | The reranking branch assigns ids as `add_document` does (existing ids kept), changes no other document and no index, and returns the reranked candidates (stored documents), or the reranker's or the lookup's exception. |
| `Retrieval.Retriever.FuseStored` | rag/retriver/MultipleIndex.py:105-129 | Every candidate of the fused ranking is a stored document. |
| `Retrieval.Retriever.AddThenSearch` | rag/retriver/MultipleIndex.py:77-156 | A document added with `add_document` and then searched for keeps every field it had, holds an `id` (its own if it had one, then unchanged), and is stored when every index took it; every hit is a stored document. |
| `Retrieval.Retriever.FusedStored` | rag/retriver/MultipleIndex.py:101-114 | Every document met in the gathered lists is stored in some index. |
| `TextEditor.TextEditSchema` | tools/TextEditorTool.py:7-61 | A model is accepted iff it starts with one of the four family prefixes; the schema's name is always `str_replace_based_edit_tool`; any other model raises ValueError. |
| `TextEditor.SchemaVersions` | tools/TextEditorTool.py:28-53 | `claude-opus-4*`/`claude-sonnet-4*` map to `text_editor_20250429`, `claude-3-7-sonnet*` to `text_editor_20250124`, and `claude-3-5-sonnet*` to `text_editor_20241022`. |
| `TextEditor.NormPath` | tools/TextEditorTool.py:111 | `normpath` never returns the empty string. |
| `TextEditor.NormRootedNoParent` | tools/TextEditorTool.py:111 | Normalising a rooted path leaves no `..` component. |
| `TextEditor.Basename` | tools/TextEditorTool.py:134 | `basename` contains no slash. |
| `TextEditor.NonEmptyConcat` | tools/TextEditorTool.py:111 | Dropping empty path components distributes over concatenation. |
| `TextEditor.PartsAtSlash` | tools/TextEditorTool.py:111 | The components of `x/y` are those of `x` followed by those of `y`. |
| `TextEditor.ValidatePathAsWritten` | tools/TextEditorTool.py:111-116 | As written: the result is `normpath(join(base, p))` and it starts with `base` as a string; otherwise ValueError. |
| `TextEditor.NormSiblingOf` | tools/TextEditorTool.py:111 | `normpath("/c/../a")` is `"/a"` for plain names. |
| `TextEditor.NormSibling` | tools/TextEditorTool.py:111 | `normpath("/app/../app2")` is `"/app2"`. |
| `TextEditor.AsWrittenAcceptsSibling` | tools/TextEditorTool.py:111-116 | As written, base `/app` accepts `../app2`, giving `/app2`, which is not within `/app`. |
| `TextEditor.SiblingNotWithin` | tools/TextEditorTool.py:111-116 | `/app2` is not within `/app`. |
| `TextEditor.ValidatePath` | tools/TextEditorTool.py:111-116 | Corrected check: an accepted path is `normpath(join(base, p))`; otherwise ValueError. |
| `TextEditor.ValidatePathContained` | tools/TextEditorTool.py:111-116 | Every path the corrected check accepts lies within the base directory (component-wise), and the as-written check accepts it with the same result. |
| `TextEditor.PrefixWithin` | tools/TextEditorTool.py:111-116 | A path that starts with the base followed by a slash lies within the base. |
| `TextEditor.ValidatePathRejectsSibling` | tools/TextEditorTool.py:111-116 | The corrected check refuses `../app2` under `/app`. |
| `TextEditor.Numbered` | tools/TextEditorTool.py:243-254 | Numbering keeps one entry per line. |
| `TextEditor.RenderNumbered` | tools/TextEditorTool.py:243-254 | The `enumerate` loop and the join give the numbered lines, `"i: line"`, joined by newlines. |
| `TextEditor.NumberedLineNoNewline` | tools/TextEditorTool.py:245 | A numbered line holds no newline when the line holds none. |
| `TextEditor.RenderedLines` | tools/TextEditorTool.py:243-254 | The rendered text splits back into exactly one numbered line per selected line. |
| `TextEditor.Selection` | tools/TextEditorTool.py:234-254 | Without a range (or with an empty one) all lines are shown from 1. A range that is not a pair raises ValueError (both directions). |
| `TextEditor.SelectionInRange` | tools/TextEditorTool.py:234-247 | A range `[start, end]` within the file shows `lines[start-1:end]` (`end == -1` means the last line), `end - start + 1` lines, numbered from `start`. |
| `TextEditor.ViewText` | tools/TextEditorTool.py:231-254 | `view` of a file's content gives the numbered selection joined by newlines, or ValueError for a bad range. |
| `TextEditor.ReplaceOnce` | tools/TextEditorTool.py:303-318 | `str_replace` succeeds iff `old_str` occurs exactly once; zero or several matches raise ValueError. |
| `TextEditor.ReplaceOnceSplices` | tools/TextEditorTool.py:303-318 | A successful replacement splices `new_str` over the single occurrence and keeps the rest of the text. |
| `TextEditor.ReadLines` | tools/TextEditorTool.py:409 | `readlines` gives non-empty lines, every one but the last ending in a newline, none iff the text is empty, and the last ending in a newline iff the text does. |
| `TextEditor.ConcatReadLines` | tools/TextEditorTool.py:409-427 | Writing back the lines read gives the original text. |
| `TextEditor.InsertLines` | tools/TextEditorTool.py:411-424 | An insert line outside `0..len(lines)` raises IndexError (both directions). Otherwise the list grows by one: the first `n` lines, the new line, the rest. |
| `TextEditor.InsertSplice` | tools/TextEditorTool.py:416-427 | The written text is the first `n` lines, the inserted line, then the rest. |
| `TextEditor.InsertLinesSplice` | tools/TextEditorTool.py:416-424 | For `n` in range the new line list is `lines[:n] + [line] + lines[n:]`. |
| `TextEditor.InsertIntoText` | tools/TextEditorTool.py:408-427 | On the file's text: the new text is the first `n` lines, the inserted line, then the remaining lines, and nothing of the old text is lost. |
| `TextEditor.InsertedLinePrefix` | tools/TextEditorTool.py:412-413 | A newline is put before the new text exactly when the file is non-empty and does not end with a newline, at any position. |
| `TextEditor.BackupNameIsBackup` | tools/TextEditorTool.py:134-137 | A backup's name is the file's base name, a dot, then the mtime, so it counts as a backup of that file. |
| `TextEditor.LatestBackup` | tools/TextEditorTool.py:159-167 | No backup iff no name starts with `file_name + "."`; otherwise the lexicographically greatest such name. |
| `TextEditor.LatestIsUnique` | tools/TextEditorTool.py:167 | The greatest backup name is unique. |
| `TextEditor.BackupNamePlain` | tools/TextEditorTool.py:134-138 | A backup name is one non-empty path component, so the backup is an entry directly inside the backup directory. |
| `TextEditor.SlashEnd` | tools/TextEditorTool.py:360 | The position just past the last slash of a path (0 if it has none); no slash comes after it. |
| `TextEditor.RStripSlashes` | tools/TextEditorTool.py:360 | `rstrip("/")` gives a prefix of the text that does not end in a slash. |
| `TextEditor.SplitHead` | tools/TextEditorTool.py:360 | `os.path.dirname` is no longer than the text up to the last slash. |
| `TextEditor.SplitTail` | tools/TextEditorTool.py:360 | The tail that `os.path.split` gives holds no slash. |
| `TextEditor.MakeDir` | tools/TextEditorTool.py:360 | The `os.mkdir` step of `os.makedirs(..., exist_ok=True)` succeeds iff the name is non-empty, is not a file, and is already a directory or has an existing parent. It then adds exactly that directory. A missing name whose parent is a file raises NotADirectoryError. |
| `TextEditor.MakeDirs` | tools/TextEditorTool.py:360 | `os.makedirs(..., exist_ok=True)`: on success the path is a directory, no directory is lost, and no new directory is a path that was a file. |
| `TextEditor.MakeDirsExisting` | tools/TextEditorTool.py:360 | Making an existing directory whose parent exists changes nothing. |
| `TextEditor.MakeDirsUnderFile` | tools/TextEditorTool.py:360 | A directory whose parent is a file cannot be made: NotADirectoryError. |
| `TextEditor.Copy2` | tools/TextEditorTool.py:138 | `shutil.copy2` succeeds iff the source is a file and the target (inside the destination when that is a directory) is neither a directory nor the source. It then adds or overwrites the target with the source's text and leaves every other file as it was. |
| `TextEditor.BackupThenRestore` | tools/TextEditorTool.py:138-170 | Copying a file to its backup, changing the file, then copying the backup back restores the old text and keeps the backup. |
| `TextEditor.Entries` | tools/TextEditorTool.py:161 | `os.listdir` over the snapshot: every listed name is one non-empty path component. |
| `TextEditor.JoinComponent` | tools/TextEditorTool.py:136 | Joining one component to a directory puts it right after the directory's trailing slash. |
| `TextEditor.EntryPath` | tools/TextEditorTool.py:161-169 | Each name listed in a directory, joined to it, is an existing path, so the backup `undo_edit` picks exists. |
| `TextEditor.EntriesAdd` | tools/TextEditorTool.py:135-138 | Writing `dir/x` adds exactly `x` to the listing of `dir`. |
| `TextEditor.BasenameOfJoin` | tools/TextEditorTool.py:170 | The base name of `dir/x` is `x`, so a copy into a directory keeps the backup's name. |
| `TextEditor.ListDir` | tools/TextEditorTool.py:222 | The listing holds every entry exactly once, in some order. |
| `TextEditor.TextEditorTool.Init` | tools/TextEditorTool.py:89-91 | The tool holds the given directories and snapshot, which satisfy the invariant: no path is both a file and a directory, and the backup directory exists. |
| `TextEditor.TextEditorTool.New` | tools/TextEditorTool.py:75-91 | An empty base directory means the working directory, and an empty backup directory means `.backups` inside the base. The backup directory is then made with `os.makedirs`, whose error is the constructor's. On success the tool satisfies the invariant and its directories are those `makedirs` leaves. |
| `TextEditor.TextEditorTool.View` | tools/TextEditorTool.py:189-269 | A path outside the base raises ValueError. A directory gives its entries, each exactly once and one per line, derived from the snapshot's paths. A missing path raises FileNotFoundError, and a file shows its numbered selection. |
| `TextEditor.TextEditorTool.StrReplace` | tools/TextEditorTool.py:271-330 | A path outside the base raises ValueError, a missing path FileNotFoundError, a directory IsADirectoryError, and a non-unique match ValueError. A failed backup copy raises its error. Every error leaves all files as they were. Success keeps the invariant and the directories, copies the old text to `backup_dir/name.mtime`, and writes the replaced text. When that path is not a directory, the backup directory then lists the backup, and it holds the old text. |
| `TextEditor.TextEditorTool.BackupListed` | tools/TextEditorTool.py:134-138 | A successful backup copy is listed in the backup directory and holds the file's text. |
| `TextEditor.TextEditorTool.Create` | tools/TextEditorTool.py:332-373 | A path outside the base raises ValueError and an existing path FileExistsError. Otherwise the parent is made with `os.makedirs`, whose error is raised with nothing changed. The file is then written unless the path has become a directory, which raises IsADirectoryError. The invariant holds afterwards, and on success no listing loses a name. |
| `TextEditor.TextEditorTool.Insert` | tools/TextEditorTool.py:375-436 | The path checks come as in `str_replace`. The backup copy is made before the line number is checked, so a failed copy changes nothing, and an IndexError leaves the file unchanged but the new backup behind. Success writes the lines with the new one spliced in; the backup is then listed in the backup directory and holds the old text. |
| `TextEditor.TextEditorTool.UndoEdit` | tools/TextEditorTool.py:438-468 | A path outside the base raises ValueError; a missing path, or one with no backup listed in the backup directory, raises FileNotFoundError. Otherwise the greatest listed backup, an existing path, is copied with `shutil.copy2` onto the file (into it, under the backup's name, for a directory). A failed copy raises its error and changes nothing. |
| `WebSearch.AnyFamily` | tools/web_search_tool/web_tool.py:133-136 | True iff the model starts with the first three dash-separated parts of some supported model. |
| `WebSearch.SplitFamily` | tools/web_search_tool/web_tool.py:134 | Splitting `a-b-c-rest` on `-` gives `a`, `b`, `c` and then the parts of `rest`. |
| `WebSearch.FamilyOf` | tools/web_search_tool/web_tool.py:134 | The family of `a-b-c-rest` is `a-b-c`. |
| `WebSearch.ValidateModelFamilies` | tools/web_search_tool/web_tool.py:123-136 | `validate_model(m)` holds iff `m` starts with `claude-3-7` or `claude-3-5`. |
| `WebSearch.FindIn` | tools/web_search_tool/web_tool.py:148-152 | The result is the first entry whose name equals the argument ignoring case, or none iff no entry matches. |
| `WebSearch.FindInIgnoresCase` | tools/web_search_tool/web_tool.py:150 | Names that differ only in case find the same entry. |
| `WebSearch.UserLocationFor` | tools/web_search_tool/web_tool.py:184-199 | An unknown location raises ValueError (both directions); otherwise the type, city, region, country and timezone of the matched entry are copied. |
| `WebSearch.WebSearchTool.constructor` | tools/web_search_tool/web_tool.py:58-60 | All three caches start empty. |
| `WebSearch.WebSearchTool.AllowedDomains` | tools/web_search_tool/web_tool.py:96-101 | A filled cache is returned without reading the file. An empty cache reads the file once and caches the list; a failed read propagates and leaves the cache empty. The other caches are untouched. |
| `WebSearch.WebSearchTool.BlockedDomains` | tools/web_search_tool/web_tool.py:103-108 | The same lazy caching for the blocked-domain list. |
| `WebSearch.WebSearchTool.Localizations` | tools/web_search_tool/web_tool.py:110-115 | The same lazy caching for the localizations list. |
| `WebSearch.WebSearchTool.ClearCache` | tools/web_search_tool/web_tool.py:117-121 | All three caches are reset, so the next access reads the files again. |
| `WebSearch.WebSearchTool.FindLocalization` | tools/web_search_tool/web_tool.py:138-152 | Stated from the state before the call: a filled cache is used without a read, and an empty one reads the file once (`loads` counts it) and then holds the list, or stays empty when the read fails. The result is the read's error, or the case-insensitive first match or none. |
| `WebSearch.WebSearchTool.CreateUserLocationConfig` | tools/web_search_tool/web_tool.py:171-199 | The localizations are read through the cache as in `find_localization`, stated from the state before the call. A failed read raises its error; otherwise the result is the user-location block of the match, or ValueError. |
| `WebSearch.WebSearchTool.GetWebSearchSchema` | tools/web_search_tool/web_tool.py:233-293 | An unsupported model raises ValueError, then asking for both domain filters raises ValueError; in either case no cache is touched and nothing is read. Otherwise only the lists needed are read, each through its cache: a filled cache is used as is, an empty one is read once and filled, or stays empty when the read fails. A failed read raises its error. The schema always has type `web_search_20250305`, name `web_search` and the given `max_uses`. `allowed_domains` is present iff requested and non-empty. `blocked_domains` is present iff allowed domains were not requested, blocked ones were, and the list is non-empty; so never both. `user_location` is present iff a non-empty name was given, and holds the matched entry; an unknown location raises ValueError. |
| `WebSearch.WebSearchTool.AssembleSchema` | tools/web_search_tool/web_tool.py:272-293 | The schema built after the checks: the allowed list is read when asked for, otherwise the blocked list when asked for, each through its cache as in `allowed_domains`/`blocked_domains`, and attached only when non-empty. A non-empty location name then reads the localizations through their cache and adds the matched user location. A failed read raises its error, and an unknown location raises ValueError. |
| `PromptEval.RunEnd` | evaluation/promptEvaluator.py:20 | The scan for a placeholder stops at the next brace. |
| `PromptEval.Placeholders` | evaluation/promptEvaluator.py:20 | `re.findall(r"{([^{}]+)}")` finds only non-empty, brace-free names. |
| `PromptEval.Render` | evaluation/promptEvaluator.py:19-29 | The loop replaces every `{name}` whose name is a variable with its value, in placeholder order, then turns `{{` into `{` and `}}` into `}`. |
| `PromptEval.NoPlaceholders` | evaluation/promptEvaluator.py:20 | A template without `{` has no placeholders. |
| `PromptEval.ReplaceNoFirstChar` | evaluation/promptEvaluator.py:29 | Replacing a pattern whose first character is absent changes nothing. |
| `PromptEval.RenderNoBraces` | evaluation/promptEvaluator.py:19-29 | A template with no brace characters is returned unchanged. |
| `PromptEval.RenderSingle` | evaluation/promptEvaluator.py:19-29 | A template that is one placeholder naming a variable renders to the variable's value. |
| `PromptEval.SubstituteIgnoresOthers` | evaluation/promptEvaluator.py:23-27 | A variable named by no placeholder does not affect the substitution loop. |
| `PromptEval.RenderIgnoresOthers` | evaluation/promptEvaluator.py:19-29 | Variables that no placeholder names have no effect on the result. |
| `PromptEval.SubstituteUnknown` | evaluation/promptEvaluator.py:23-27 | Placeholders that name no variable are left as written by the loop. |
| `PromptEval.RenderUnknown` | evaluation/promptEvaluator.py:19-29 | When no placeholder names a variable, only the escapes are undone. |
| `PromptEval.ScoreClass` | evaluation/promptEvaluator.py:197-203 | `score >= 8` gives `score-high`, `score <= 5` gives `score-low`, anything else `score-medium` (each both directions). |
| `PromptEval.RowClasses` | evaluation/promptEvaluator.py:185-203 | The report loop gives each result, in order, its score's class. |
| `PromptEval.Passing` | evaluation/promptEvaluator.py:38 | The number of passing scores is at most the number of results. |
| `PromptEval.PassingBounds` | evaluation/promptEvaluator.py:38 | All results pass iff every score is at least 7; none passes iff every score is below 7. |
| `PromptEval.PassRate` | evaluation/promptEvaluator.py:37-41 | The pass rate lies in `[0, 100]`, and is 0 without results. |
| `PromptEval.PassRateExtremes` | evaluation/promptEvaluator.py:37-41 | With results, the pass rate is 100 iff every score is at least 7, and 0 iff every score is below 7. |
| `PromptEval.AverageBounds` | evaluation/promptEvaluator.py:35 | The average score lies within the range of the scores. |
| `PromptEval.SumBounds` | evaluation/promptEvaluator.py:35 | The sum of `n` scores in `[lo, hi]` lies between `n*lo` and `n*hi`. |
| `PromptEval.Stats` | evaluation/promptEvaluator.py:32-41 | The report counts every result, and both average and pass rate are 0 without results. |
| `PromptEval.BoundCall` | evaluation/promptEvaluator.py:599 | A call through an instance passes one more argument than written, and raises TypeError iff the counts differ. |
| `PromptEval.ReportCallAsWritten` | evaluation/promptEvaluator.py:32 | The report builder has one parameter and no `self`, so the call `self.generate_prompt_evaluation_report(results)` raises TypeError. |
| `ToolUse.RunTool` | tools/tool_use.py:5-10 | `get_current_datetime` and `batch_tool` call their tools; any other name returns `None` without raising. |
| `ToolUse.ToolRequests` | tools/tool_use.py:20-22 | The requests are `tool_use` blocks of the reply. |
| `ToolUse.ResultFor` | tools/tool_use.py:26-41 | A result carries its request's id. It is not an error iff the tool and `json.dumps` both return, and then holds the JSON text; otherwise it is an error reading `"Error: " + message`. |
| `ToolUse.RunTools` | tools/tool_use.py:18-44 | One result per `tool_use` block, in order, each the result for its request; a request that raises does not stop the later ones. |
| `ToolUse.RequestsCount` | tools/tool_use.py:20-22 | There are exactly as many requests as `tool_use` blocks. |
| `ToolUse.RequestsOfConcat` | tools/tool_use.py:20-22 | The requests of two replies joined are the requests of each, joined. |
| `ToolUse.IgnoresOtherBlocks` | tools/tool_use.py:20-22 | A block of any other type, inserted anywhere, changes no result. |
| `FileUpload.PathName` | features/files/file_API_use.py:31 | `Path(p).name` contains no slash. |
| `FileUpload.Named` | features/files/file_API_use.py:31 | The path components kept are components of the path. |
| `FileUpload.LastDot` | features/files/file_API_use.py:5 | The last dot of the name, or -1 iff it has none. |
| `FileUpload.Suffix` | features/files/file_API_use.py:4-5 | `Path(p).suffix` is empty, or a dot followed by at least one character and no other dot. |
| `FileUpload.UploadTarget` | features/files/file_API_use.py:3-31 | An extension, lower-cased, not in the table (the empty one included) raises ValueError (both directions); otherwise the upload gets the final path component and the mapped MIME type. |
| `FileUpload.NoExtensionRejected` | features/files/file_API_use.py:27-30 | A path without an extension raises ValueError. |
| `RagContext.Contextualize` | rag_context.py:26-38 | The loop gives one contextualised chunk per chunk, in order, each made from that chunk and its context parts joined by newlines. |
| `RagContext.PartsShape` | rag_context.py:29-34 | Chunk `i` has `min(2, n) + min(i, 2)` context parts: first the leading chunks, then up to two chunks just before `i`, in document order. |
| `RagContext.EarlyChunksRepeat` | rag_context.py:22-34 | With three or more chunks, chunk 0's context is chunks 0 and 1, and chunk 2's context holds chunks 0 and 1 twice. |

## Left out

- Floating point: scores, distances and averages are exact reals. `math.log`, `math.exp` and `math.sqrt` are arbitrary functions carried in a `MathLib` value. Lemmas that need a fact about them take it as a precondition: `log(x) > 0` for `x > 1`, `exp` increasing, and the square-root laws.
- Python's `str.lower()` and the regular-expression class `\w` are modelled for ASCII. Other characters are taken as word characters and are not lowered.
- `__repr__` of both indexes, and `get_available_locations`, `get_pricing_info`, `get_supported_models` and `export_config_summary` of the web-search tool, are not modelled. They only format or copy data.
- The index protocol (rag/retriver/MultipleIndex.py:55-60) is a closed datatype with one case per index kind, `Retrieval.SearchIndex`, and the retriever dispatches by match. An index class other than these two, which Python's structural protocol would accept, cannot be plugged in. Its `add_documents` appears only as the as-written retriever method that fails.
- `PromptEval.Stats` is the report builder as intended, a free function of the results. The failing call as written is in "## Findings".
- `Retrieval.Retriever.New`: requires the index objects to be distinct and valid. Passing the same index twice, which Python allows, is not modelled.
- `Retrieval.Retriever.Search` computes the fused ranking with the function `Fusion.Fuse`. The loop form of the same steps is `Retrieval.FuseLists`, proved equal to it.
- The reranker's own body is not modelled, since it calls a language model. It is an arbitrary function from the candidates' dictionaries, the query and `k` to a list of ids, or to the exception it raises. The same holds for the embedding function of a vector index.
- Random ids: `random.choices` is modelled as a choice of any 4-character alphanumeric string. Nothing makes ids unique, and the code does not either.
- `Dense.VectorIndex.Search`: the `_vector_dim is None` branch is not modelled, because it cannot be reached. The dimension is set exactly when a vector is stored, and an empty index has already answered `[]`.
- `Bm25.BM25Index`: a custom tokenizer is a total function from text to tokens. One that raises, in `add_document` or `search`, is not modelled.
- `Dense.VectorIndex.AddDocument`: the embedding function returns a list of floats or raises. A result of another type, which `add_vector` would reject, cannot be expressed.
- `Retrieval`: the retriever's contracts carry each index's content and answers, not the BM25 index's lazily built statistics (`idf`, `avg_doc_len`, `index_built`), which a search may rebuild. The BM25 methods themselves state those.
- `Retrieval.Retriever.Search`, `Retrieval.Retriever.FuseAndRerank` and `Retrieval.Retriever.RerankFused`: the frame on documents is stated for every document allocated before the call; no document is created.
- `WebSearch.WebSearchTool.constructor`: `config_dir.mkdir(parents=True, exist_ok=True)` (tools/web_search_tool/web_tool.py:62-64) is not modelled. The configuration files are an oracle, so the directory has no effect on the model.
- `TextEditor.MakeDirs`: the early return of `os.makedirs` when the last component is `.` is not modelled. A backup directory given as `x/.` is recorded under that spelling, where Python only makes `x`.
- The language-model calls: `add_context` in the chunk loop is a function parameter, and so are the `chat` helpers.
- `TextEditor.TextEditorTool`: the file system is a snapshot, so operating-system calls are not modelled: a map from each file's path to its text, and the set of directory paths. Listings are derived from these paths, and backups are files in the backup directory. The working directory and each file's mtime are parameters. `PermissionError` and file metadata are not modelled. The tool's text decoding (`UnicodeDecodeError`) is not modelled. Neither is the universal-newline translation of text mode, which reads `\r\n` and `\r` as `\n`: the text is taken as stored.
- `TextEditor.MakeDirs` and `TextEditor.Copy2`: the root and the working directory are taken to exist. A parent directory counts as existing when its own path is a directory of the snapshot; whether its ancestors are is not checked, as in a real tree. `copy2` writes only where the parent directory exists at each call site. `os.path.samefile` is modelled as equality of the two paths.
- `TextEditor.TextEditorTool.View`, `TextEditor.TextEditorTool.StrReplace`, `TextEditor.TextEditorTool.Create`, `TextEditor.TextEditorTool.Insert` and `TextEditor.TextEditorTool.UndoEdit` use the corrected containment check `TextEditor.ValidatePath`. A sibling such as `/app2` under the base `/app`, which the code as written accepts and goes on to read or write, gives ValueError here. The check as written is `TextEditor.ValidatePathAsWritten`.
- `TextEditor.TextEditorTool.StrReplace` and `TextEditor.TextEditorTool.Insert`: for a directory they return IsADirectoryError, which is what `open` raises there.
- `TextEditor.TextEditorTool.UndoEdit`: the second `try` block after the first one's `return`/`raise` cannot be reached, so only the first is modelled.
- The web-search configuration files are an oracle, `ConfigFiles`. It says, for each file, what `json.load` gives (the parsed list) or which error is raised. A localization entry without a `name` or `type` key, which raises KeyError in `find_localization` and `create_user_location_config`, cannot be expressed: every `Localization` value has all six fields.
- `ToolUse`: the two tools and `json.dumps` are an oracle, `Toolbox`. Each call returns a value or raises with a message.
- `PromptEval`: scores are integers. `str()` of each variable is taken as given, so `variables` maps names to strings. The HTML assembly, the `%`-formatting and `statistics.mean` are not modelled beyond the exact average. Dataset generation, grading and the thread pool are not modelled.
- `FileUpload`: opening the file and the client calls (upload, list, delete, download, metadata) are not modelled.

## Findings

| source | as written | input that shows it | evidently intended | confidence | as-written member | corrected member |
|---|---|---|---|---|---|---|
| rag/retriver/MultipleIndex.py:87-89 | `add_documents` calls `index.add_documents(documents)`, which neither `BM25Index` nor `VectorIndex` defines | any retriever over these indexes and any list of documents: AttributeError on the first index, and nothing is stored | each index takes every document, as repeated `add_document` would | not executed | `Retrieval.Retriever.AddDocumentsAsWritten` | `Retrieval.Retriever.AddDocuments` |
| evaluation/promptEvaluator.py:32 | `generate_prompt_evaluation_report(evaluation_results)` is defined in the class without `self`, and called as `self.generate_prompt_evaluation_report(results)` at line 599 | any run in which every test case is graded without raising (line 583), there is at least one result (`mean` at line 593 raises StatisticsError on none) and the JSON file is written: the bound call at line 599 then passes two arguments to one parameter and raises TypeError before the report is written | a free function (or `@staticmethod`) of the results | not executed | `PromptEval.ReportCallAsWritten` | `PromptEval.Stats` |
| tools/TextEditorTool.py:111-116 | the containment test is a string-prefix test, `abs_path.startswith(base_dir)` | base directory `/app` and path `../app2`: normalised to `/app2`, which starts with `/app` and is accepted | only paths equal to the base directory or below it are accepted, so the base must be followed by a path separator | not executed | `TextEditor.AsWrittenAcceptsSibling` | `TextEditor.ValidatePathContained` |
