# Retrieval core of the Multimodal Knowledge Assistant, in Dafny

This project models the retrieval core of a retrieval-augmented question-answering
application. It covers each step of the core:

- Extracted text is split into word chunks.
- Each chunk is embedded and appended to an append-only MySQL table.
- On a query, every stored chunk is ranked against the query embedding.
- The best chunks are handed to a generative model as context.

Every outside capability is a parameter of the model, an oracle that
returns a value or fails:

- the SentenceTransformer and Gemini embedding calls;
- the Gemini generator;
- MySQL (whether a connection comes up, whether a statement commits, what a SELECT returns);
- the document libraries (PyMuPDF, python-docx, python-pptx, markdown, Whisper).

Everything else is sequential and deterministic.

One module per source file:

| module | source file | form |
|---|---|---|
| `GenerateEmbeddings` | backend/generate_embeddings.py | `ChunkText` as a function; `CreateEmbeddings` as a loop that appends through `Db.Database` |
| `Embeddings` | backend/embeddings.py | the Gemini ingestion loop, with its blank-text return, `continue` and empty-embedding skip |
| `Db` | backend/db.py | class `Database` holding the two tables as `seq` fields; `InsertDocument`/`InsertEmbedding` append |
| `SearchEngine` | backend/search_engine.py | the scoring loop, then a stable descending sort and the `[:top_k]` slice |
| `QueryEngine` | backend/query_engine.py | the in-place parsing loop over fetched rows, the ranking loop, `generate_answer` branching |
| `QueryHandler` | backend/query_handler.py | `generate_answer` over `search_similar_chunks(query, top_k=5)` |
| `StoreData` | backend/store_data.py | `extract_text_from_file` dispatch and `process_and_store` |
| `ExtractText` | backend/extract_text.py | per-format extractors and the `extract_text` dispatcher |

Helper modules:

- `PyStr` holds the Python string built-ins the core relies on: `str.split()`,
  `str.strip()`, `sep.join`, `str.lower` and the extension part of `os.path.splitext`.
- `PyList` holds `list.sort(key=..., reverse=True)`, specified by a stable
  insertion sort, and the Python slice `s[:k]`.
- `DocumentFormats` holds the `+=` loops over PDF pages and PowerPoint shapes
  that both dispatchers share.
- `Wrappers` holds `Option` and `Result`.

Scores are `real`. An oracle call that raises is `None` (or `Failure`). An
exception the source does not catch is the `Uncaught` result of `QueryEngine`,
or the `Crashed` outcome of `StoreData.ExtractAsWritten`.

Behaviour of the code worth noting:

- With a negative `top_k`, the slice `[:top_k]` drops the last `|top_k|`
  hits (`SearchEngine.SearchLength`).
- backend/embeddings.py keeps the `enumerate` index of a chunk whose
  embedding comes back empty, so the stored indices can have gaps
  (`Embeddings.StoredIndexIff`, `Embeddings.GapExample`).
- Every chunk the chunker yields is non-empty and has no surrounding
  whitespace (`GenerateEmbeddings.ChunksTrimmed`).
- numpy gives NaN as the cosine similarity of a zero-norm vector. The model
  takes the score as an oracle that returns a real or fails (see "Left out").
- backend/query_engine.py does not catch a score that raises. The exception
  leaves `generate_answer` (`QueryEngine.AnswerRaises`).

## Model

| member | source | states |
|---|---|---|
| GenerateEmbeddings.ChunkText | backend/generate_embeddings.py:6-9 | chunk_text fails (range raises) exactly when chunk_size is 0; a negative size yields nothing; a positive size yields the word groups of text.split() |
| GenerateEmbeddings.ChunkCount | backend/generate_embeddings.py:7-9 | the chunker yields exactly ceil(W / chunk_size) chunks for W words, so 0 for a text without words |
| GenerateEmbeddings.ChunkSizes | backend/generate_embeddings.py:8-9 | every chunk but the last has exactly chunk_size words; the last has between 1 and chunk_size |
| GenerateEmbeddings.ChunkWordsReconstruct | backend/generate_embeddings.py:7-9 | the words of the chunks, in order, are exactly text.split() |
| GenerateEmbeddings.ChunksAreJoinedWords | backend/generate_embeddings.py:9 | each chunk is its own words joined by single spaces |
| GenerateEmbeddings.ChunksTrimmed | backend/generate_embeddings.py:9 | every chunk is non-empty and equal to its own strip() |
| GenerateEmbeddings.BlankTextNoChunks | backend/generate_embeddings.py:7-9 | the chunker yields nothing exactly when the text is empty or whitespace-only |
| GenerateEmbeddings.FiveWordsInPairs | backend/generate_embeddings.py:6-9 | "alpha beta gamma delta echo" in chunks of 2 gives "alpha beta", "gamma delta", "echo" |
| GenerateEmbeddings.EncodedCount | backend/generate_embeddings.py:14-15 | the loop reaches the first chunk on which encode raises: every earlier chunk encodes, that one does not |
| GenerateEmbeddings.CreateEmbeddings | backend/generate_embeddings.py:11-19 | the embeddings table grows by exactly the rows of the chunks encoded before the first failure, with their enumerate index; the documents table is unchanged and nothing is raised |
| GenerateEmbeddings.RowsForShape | backend/generate_embeddings.py:14-16 | every stored row carries doc_id, the chunk at its index and that chunk's vector, in strictly increasing index order |
| GenerateEmbeddings.RowsWhenAllLand | backend/generate_embeddings.py:14-16 | when every write lands, row i is (doc_id, i, chunk i, its vector) |
| GenerateEmbeddings.IngestAll | backend/generate_embeddings.py:14-16 | with no failure, one row per chunk in chunk order, with indices 0 .. n-1 |
| GenerateEmbeddings.IngestStopsAtFailure | backend/generate_embeddings.py:13-19 | if encode raises on chunk k and every write lands, exactly chunks 0 .. k-1 are stored |
| GenerateEmbeddings.BlankTextIngestsNothing | backend/generate_embeddings.py:7-14 | empty or whitespace-only text stores nothing, although there is no guard |
| Embeddings.IsSkipped | backend/embeddings.py:39 | `not chunk.strip()` holds exactly for blank chunks |
| Embeddings.Reached | backend/embeddings.py:38-47 | the loop stops at the first non-skipped chunk whose embedding call raises, or at the end |
| Embeddings.CreateEmbeddings | backend/embeddings.py:26-59 | the embeddings table grows by exactly the stored rows; the documents table is unchanged; blank text returns at once |
| Embeddings.EmbedChunks | backend/embeddings.py:37-59 | the loop adds, in order, each chunk that is not skipped, has a non-empty embedding and whose write lands, with its enumerate index |
| Embeddings.StoredRowsStep | backend/embeddings.py:38-54 | one more chunk adds nothing when it is skipped or its embedding is empty, otherwise its row exactly when its write lands |
| Embeddings.NoChunkSkipped | backend/embeddings.py:21-40 | no chunk the chunker yields is blank, so the `continue` never fires |
| Embeddings.StoredRowsShape | backend/embeddings.py:49-51 | every stored row carries doc_id, the chunk itself and its non-empty embedding; indices strictly increase |
| Embeddings.StoredIndexIff | backend/embeddings.py:38-54 | index j is stored exactly when chunk j is kept; a dropped chunk leaves a gap later indices do not close |
| Embeddings.GapExample | backend/embeddings.py:49-54 | three chunks whose middle embedding is empty are stored under indices 0 and 2 |
| Embeddings.StopsAtFailure | backend/embeddings.py:37-59 | if the embedding call raises on chunk k, only indices below k are stored and nothing propagates |
| Embeddings.BlankTextStoresNothing | backend/embeddings.py:32-35 | blank text stores nothing whatever the embedding and write oracles do, so neither is used |
| Embeddings.SameStopPoint | backend/embeddings.py:37-47 | without blank chunks the loop stops where the live loop stops |
| Embeddings.SameAsLiveRows | backend/embeddings.py:37-54 | without blank chunks or empty embeddings, the rows are those of the live loop |
| Embeddings.SameAsLive | backend/embeddings.py:26-59 | when no embedding comes back empty, both ingestion loops store the same rows for every text |
| Db.GetConnection | backend/db.py:9-24 | a connection comes back exactly when connecting succeeds and reports itself connected; otherwise None, never an exception |
| Db.Database.InsertDocument | backend/db.py:27-51 | appends (doc_id, content) when the write lands, else changes nothing; never touches the embeddings table |
| Db.Database.InsertEmbedding | backend/db.py:54-80 | appends exactly one row when the write lands, else changes nothing; existing rows and the documents table stay as they were |
| Db.DuplicateInsertsCoexist | backend/db.py:62-75 | inserting the same (document_id, chunk_index) twice leaves two equal rows: no uniqueness check |
| PyList.SortDescCorrect | backend/search_engine.py:58 | list.sort(reverse=True) gives a non-increasing permutation in which equal keys keep input order |
| PyList.SliceTo | backend/search_engine.py:59 | `s[:k]` has min(k, len) elements for k >= 0, drops the last -k for k < 0, and is always a prefix |
| SearchEngine.SearchSimilarChunks | backend/search_engine.py:25-67 | the loop, sort and slice return the stable descending ranking of the scored rows cut to top_k, or [] on every failure path |
| SearchEngine.ScoredMembers | backend/search_engine.py:47-55 | a hit is in `similarities` exactly when some row scores and gives it; rows whose scoring raises are omitted |
| SearchEngine.ScoredRows | backend/search_engine.py:47-55 | rows whose scoring raises are omitted and every other row gives exactly one hit: hit m comes from row idx[m] with that row's score, the indices strictly increase, and every row that scores has its index in idx |
| SearchEngine.ScoredAll | backend/search_engine.py:47-55 | when every row scores, there is one hit per row, in scan order |
| SearchEngine.SearchRanked | backend/search_engine.py:57-59 | the result is ordered by non-increasing score, is a prefix of the full ranking, and holds each scored hit at most as often as it was scored |
| SearchEngine.SearchHitsFromRows | backend/search_engine.py:47-59 | every returned hit comes from a row that scored, with that score |
| SearchEngine.SearchLength | backend/search_engine.py:59 | min(top_k, scored rows) hits for top_k >= 0; a negative top_k drops the last abs(top_k) hits |
| SearchEngine.SearchTiesInScanOrder | backend/search_engine.py:58 | hits with equal scores keep their table-scan order |
| SearchEngine.SearchKeepsBest | backend/search_engine.py:58-59 | every returned score is at least every computed score that was cut off |
| SearchEngine.SearchReturnsAll | backend/search_engine.py:47-59 | with no failure and top_k at least the table size, every row comes back exactly once |
| SearchEngine.EmptyTableNoEmbedding | backend/search_engine.py:39-41 | an empty table gives [] whatever the query embedding call would do |
| SearchEngine.SearchFailuresGiveNothing | backend/search_engine.py:29-63 | a missing connection, a failing SELECT or a failing query embedding gives [] |
| QueryEngine.ParseEmbeddings | backend/query_engine.py:46-47 | the loop rewrites every row's embedding with its parsed vector, and reports failure exactly when some column does not parse; on failure the rows before the first bad column are rewritten and the rest are untouched |
| QueryEngine.FetchAllEmbeddings | backend/query_engine.py:30-51 | returns [] on a missing connection, a failing SELECT or a bad vector, else the rows with parsed vectors |
| QueryEngine.FetchAllOrNothing | backend/query_engine.py:30-51 | either nothing or every selected row comes back, in order, with only its vector parsed |
| QueryEngine.FetchBadRowEmptiesAll | backend/query_engine.py:46-51 | one stored vector that does not parse empties the whole result |
| QueryEngine.Similarities | backend/query_engine.py:68-71 | when the scoring loop succeeds it has one entry per row |
| QueryEngine.Texts | backend/query_engine.py:74 | only the text_chunk of each selected entry is returned, in order |
| QueryEngine.FindMostRelevantChunks | backend/query_engine.py:59-75 | the loop, sort and slice return the ranked texts cut to top_k, or the exception the first failing score raises |
| QueryEngine.SimilaritiesFail | backend/query_engine.py:68-71 | the ranking raises exactly when some row's score raises |
| QueryEngine.SimilaritiesOfRows | backend/query_engine.py:68-71 | entry i of the similarities is row i's score and text |
| QueryEngine.NoRowsNoChunks | backend/query_engine.py:63-66 | no rows gives [] |
| QueryEngine.MostRelevantRanked | backend/query_engine.py:68-75 | for top_k >= 0, min(top_k, rows) texts, taken from a non-increasing, tie-stable permutation of all row scores |
| QueryEngine.MostRelevantRaises | backend/query_engine.py:68-71 | find_most_relevant_chunks raises exactly when some score raises |
| QueryEngine.NoEmbeddingMessage | backend/query_engine.py:83-85 | a missing query embedding gives the fixed "Failed to generate embedding" message without searching |
| QueryEngine.NothingFetchedSentinel | backend/query_engine.py:87-89 | no fetched rows gives the "No relevant data" sentinel without calling the generator |
| QueryEngine.AnswerRaises | backend/query_engine.py:79-89 | generate_answer raises exactly when a score raises on some fetched row |
| QueryEngine.AnswerFromChunks | backend/query_engine.py:91-109 | the generator gets the prompt around the "\n\n" join of the ranked texts; its reply comes back stripped, or its error behind "Gemini API error: " |
| QueryHandler.ChunkTexts | backend/query_handler.py:24 | element [2] of each hit, in ranked order |
| QueryHandler.NoHitsSentinel | backend/query_handler.py:18-21 | an empty search result gives the fixed sentinel whatever the generator would say |
| QueryHandler.AnswerFromHits | backend/query_handler.py:17-43 | with hits, at most five texts in non-increasing score order are joined by "\n\n" into the prompt, and the answer is the generator's reply |
| QueryHandler.RepliesStripped | backend/query_handler.py:43 | a successful reply comes back stripped |
| QueryHandler.ErrorLooksLikeAnswer | backend/query_handler.py:41-46 | a generator error and an answer that reads like the error text give the same string |
| StoreData.KindOf | backend/store_data.py:23-61 | an extension is unsupported exactly when it is none of the twelve listed ones |
| StoreData.Finish | backend/store_data.py:67-73 | None exactly for blank text; otherwise a non-empty stripped string; stripped text is kept as is |
| StoreData.ExtractTextFromFile | backend/store_data.py:11-73 | dispatches on the lower-cased extension, runs the page and shape loops, strips, and maps blank text, failures and unsupported kinds to None |
| StoreData.CrashIff | backend/store_data.py:47-67 | as written, the call raises exactly for an audio or video file whose extractor returned None |
| StoreData.AsWrittenAgrees | backend/store_data.py:11-73 | wherever the code as written does not raise, it returns what the corrected function returns |
| StoreData.SilentAudioCrashes | backend/store_data.py:48-67 | "talk.mp3" with no transcript raises as written, where None was meant |
| StoreData.ExtractedIsStripped | backend/store_data.py:67-73 | the result is never the empty string and never has surrounding whitespace |
| StoreData.UnsupportedGivesNone | backend/store_data.py:59-61 | an unsupported extension gives None whatever the file holds |
| StoreData.ImagesGivePlaceholder | backend/store_data.py:56-57 | an image extension gives the fixed placeholder text |
| StoreData.UpperCaseImage | backend/store_data.py:16 | ".JPG" behaves like ".jpg": the extension is lower-cased first |
| StoreData.AgreesWithExtractText | backend/store_data.py:27-45 | for PDF and PowerPoint files, both dispatchers read the same text; this one answers None where the other answers "" |
| StoreData.FailuresGiveNone | backend/store_data.py:21-67 | when every library call raises, the corrected extraction gives None for every extension other than an image; as written, an audio or video extension raises at the strip instead (the Findings row) and every other non-image extension gives None |
| StoreData.DocxJoined | backend/store_data.py:35-37 | a Word file's text is its paragraphs joined with "\n", then stripped and mapped to None when blank |
| StoreData.PptxHoldsEveryShape | backend/store_data.py:42-45 | every PowerPoint text shape, followed by "\n", occurs in the collected text at the offset of the lines collected before it |
| StoreData.ProcessAndStore | backend/store_data.py:76-99 | stated over the corrected extraction of the Findings row: no text gives (None, None) and no store call; otherwise the document is inserted, then its embeddings are created with the same id and text, and (doc_id, text) is returned. As written, an audio or video file with no transcript raises out of process_and_store before any store call (StoreData.CrashIff) |
| DocumentFormats.ConcatPages | backend/extract_text.py:10-13 | `text += page.get_text()` over the pages concatenates them in page order |
| DocumentFormats.ConcatHoldsParts | backend/store_data.py:30-31 | each page's text occurs in the result at the offset of the pages before it |
| DocumentFormats.CollectShapeText | backend/extract_text.py:32-36 | the slide and shape loops concatenate the text of every text shape, each followed by "\n" |
| DocumentFormats.ShapeLinesMembers | backend/extract_text.py:33-36 | the collected lines are exactly the texts of shapes that have text, each followed by "\n" |
| ExtractText.FormatOf | backend/extract_text.py:64-77 | only .pdf/.docx/.pptx/.txt/.md have an extractor |
| ExtractText.NonBlank | backend/extract_text.py:23 | every kept paragraph is non-blank |
| ExtractText.NonBlankMembers | backend/extract_text.py:23 | a paragraph is kept exactly when it is not blank |
| ExtractText.DocxLines | backend/extract_text.py:23 | when no paragraph holds a newline and at least one is kept, the DOCX text split on "\n" gives back exactly the non-blank paragraphs |
| ExtractText.DocxKeepsIndent | backend/extract_text.py:19-23 | the DOCX text is not stripped: the leading indent of the first kept paragraph survives |
| ExtractText.ExtractFromPdf | backend/extract_text.py:7-17 | the page texts in page order, stripped, or "" on failure |
| ExtractText.ExtractFromPptx | backend/extract_text.py:28-40 | each text shape followed by "\n", concatenated and stripped, or "" on failure |
| ExtractText.Extract | backend/extract_text.py:62-80 | dispatches on the lower-cased extension to the per-format extractors |
| ExtractText.StrippedFormats | backend/extract_text.py:7-60 | the PDF, PPTX, TXT and Markdown extractors return stripped text |
| ExtractText.UnsupportedGivesEmpty | backend/extract_text.py:76-80 | any other extension gives "" whatever the file holds |
| ExtractText.UpperCaseExtension | backend/extract_text.py:64 | "report.PDF" is read exactly like "report.pdf" |
| ExtractText.FailuresGiveEmpty | backend/extract_text.py:7-60 | a library failure in any extractor gives "" instead of an exception |

## Left out

- `cosine_similarity` (backend/search_engine.py:19-22, backend/query_engine.py:54-56) is numpy floating point. It is an abstract oracle from two vectors to an optional real, so NaN on zero-norm vectors and float32 rounding are not modelled.
- The embedding and generation calls (Gemini `embed_content` and `generate_content`, SentenceTransformer `encode`) are oracle parameters. Their results are fixed per input, so a call that answers differently on a retry is not modelled.
- MySQL is modelled by what each call meets: a `ConnectAttempt`, whether the statement commits, and the rows a SELECT returns, in an order the model takes as given. SQL text, `CREATE TABLE IF NOT EXISTS`, AUTO_INCREMENT ids and connection closing are not modelled.
- `json.dumps` and `json.loads` of vectors are the identity in backend/db.py and backend/search_engine.py. In backend/query_engine.py, parsing is an oracle that may fail.
- StoreData.ProcessAndStore: follows the corrected extraction of the Findings row. The as-written AttributeError for an audio or video file with no transcript is stated about the extraction alone (`StoreData.CrashIff`), where it leaves process_and_store before either table is touched.
- `uuid.uuid4` is the `newDocId` parameter of `StoreData.ProcessAndStore`; `print`, `load_dotenv` and `genai.configure` are left out.
- `generate_query_embedding` (backend/query_engine.py:16-26) is the `queryEmbedding` parameter of `QueryEngine.GenerateAnswer`.
- `os.path.splitext` is modelled for the extension only (`PyStr.Extension`). `str.lower` maps only the ASCII letters, which covers every extension the dispatchers compare against.
- Python's `str.isspace` set is taken as the Unicode whitespace code points listed in `PyStr.IsSpace`.
- SearchEngine.SearchSimilarChunks: if `conn.cursor()` itself raises, the `finally` block's `cursor.close()` raises a NameError out of the function. The model returns [] for every failure of the SELECT.
- An exception that is not a `mysql.connector.Error` escaping `mysql.connector.connect` is not modelled; `Db.GetConnection` treats every failed connect as None.
- Db.Database.InsertDocument and Db.Database.InsertEmbedding: a write is modelled as landing whole or not at all. A commit that fails after a partial statement is not distinguished.
- app.py (Streamlit UI, upload to disk), backend/extract_audio.py (Whisper and moviepy) and backend/extract_image.py (Tesseract) are not part of this model. Their results enter as the `FileView` fields.
- QueryHandler.GenerateAnswer and QueryEngine.GenerateAnswer carry no contract of their own. Their properties are stated by the lemmas listed above.

## Findings

| source | as written | input that shows it | evidently intended | confidence | as-written member | corrected member |
|---|---|---|---|---|---|---|
| backend/store_data.py:47-67 | `text = text.strip()` runs outside the `try`, after an audio or video extractor that returns None on failure | "talk.mp3" whose transcription fails: `None.strip()` raises AttributeError out of `extract_text_from_file` and `process_and_store` | return None ("no readable text") like every other failed extraction | not executed | StoreData.SilentAudioCrashes | StoreData.ExtractTextFromFile |
