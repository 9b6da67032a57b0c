# A verified model of the scheme-compliance RAG pipeline

The pipeline reads PDF files, cuts every non-blank page into overlapping
character windows ("chunks"), and stores each chunk in a vector-store
collection. Each chunk carries its source file, page number and position in
the page, under an id `doc_<n>`. A query front end then asks the store for
the closest chunks to a question and renders them as ranked result cards. It
can answer one question from the command line or run an interactive loop.

This project models, in Dafny, the deterministic text and sequence handling
around the store:

- `seqs.dfy` (`Seqs`): Python's clamping slice `s[lo:hi]`, and the cursor
  values of a stride loop (`range(from, len, step)`).
- `text.dfy` (`Text`): `str.isspace`, `strip`/`lstrip`/`rstrip`, ASCII
  `lower`, and decimal rendering of the id counter.
- `config.dfy` (`Config`): the constants of rag/config.py, plus the literals
  written inline (batch size 100, display limit 500).
- `chunker.dfy` (`Chunker`): `chunk_text` as the cursor loop. It is proved
  equal to a reference definition (`Chunks`): the non-blank windows at
  the stride cursors. The window and coverage properties are proved about
  that definition.
- `corpus.dfy` (`Corpus`):
  - the page filter of `extract_text_from_pdf` over an abstract page list;
  - the page, chunk and entry flattening loop of `ingest_documents`, with
    its global id counter;
  - the provenance of every entry.
- `batcher.dfy` (`Batcher`): the `range(0, n, 100)` batch loop and the
  `add` calls it makes.
- `ingest.dfy` (`Ingest`): `ingest_documents` as a whole. The store is a
  log of calls (delete, create, add) and the map from collection names to
  contents that the log leaves behind.
- `display.dfy` (`Display`): `display_results`. It covers reading the
  answer lists, metadata defaults, `1 - dist`, truncation to 500 characters
  plus `"..."`, and 1-based ranks over the zipped lists.
- `session.dfy` (`Session`): the interactive loop as a state machine over a
  scripted input sequence, and the mode choice of `main`.
- `results.dfy` (`Results`): `Option` and `Result`.

## Model

| member | source | states |
|---|---|---|
| Seqs.Slice | rag/ingest.py:42 | A slice is clamped to the string's end. It is empty when the start is at or past the end, and otherwise holds the characters from `lo` on, in order. |
| Seqs.OffsetsShape | rag/ingest.py:133 | The cursors of a stride loop are `from, from + step, …`. All of them lie below the bound, and the next stride would reach or pass it. |
| Seqs.OffsetsCount | rag/ingest.py:133 | A stride loop from 0 visits `ceil(len / step)` cursors. |
| Seqs.OffsetsIncreasing | rag/ingest.py:39-45 | The cursor values strictly increase. |
| Text.Strip | rag/ingest.py:28 | `strip()` is empty exactly when the string is whitespace only. Otherwise it starts and ends with a non-whitespace character. |
| Text.StripInfix | rag/ingest.py:28 | `strip()` returns the piece of the string that starts right after the leading whitespace. Everything it drops before and after that piece is whitespace. Together with `Text.Strip` (the piece is empty or has non-whitespace ends) this pins the result down. |
| Text.StripsToText | rag/ingest.py:43 | The truthiness of `chunk.strip()` is true exactly when the chunk is not whitespace only. |
| Text.LowerAt | rag/query.py:113 | Lowercasing keeps the length and lowercases each character on its own, independently of its neighbours. |
| Session.ExitIgnoringCase | rag/query.py:113 | The exit test accepts `quit`, `exit` and `q` in any mix of upper and lower case, and nothing else. |
| Text.DecimalRoundTrip | rag/ingest.py:113 | The decimal rendering of a counter value reads back as that value. |
| Chunker.ChunkText | rag/ingest.py:36-46 | The cursor loop returns exactly the reference chunk list. Empty text gives no chunks. Every chunk is non-blank and at most `chunk_size` characters long. |
| Chunker.ChunkShape | rag/ingest.py:40-45 | Chunk `i` is `text[s .. min(s + size, len)]` at its start offset `s`. The start offsets are loop cursors below `len(text)` and strictly increase. Every chunk is non-blank, non-empty and at most `size` long. |
| Chunker.CursorCount | rag/ingest.py:39-45 | The loop makes `ceil(len / (size - overlap))` iterations, and iteration `k` starts at `k * (size - overlap)`. |
| Chunker.KeepSound | rag/ingest.py:43-44 | Only cursors whose window is not whitespace only are kept. |
| Chunker.KeepComplete | rag/ingest.py:43-44 | Every cursor whose window is not whitespace only is kept. |
| Chunker.KeepIncreasing | rag/ingest.py:43-45 | Dropping blank windows keeps the start offsets strictly increasing. |
| Chunker.Coverage | rag/ingest.py:40-44 | With `0 <= overlap`, every non-whitespace character of the text lies inside some emitted chunk, at its own offset. |
| Chunker.ShortText | rag/ingest.py:39-46 | A non-blank text no longer than one stride gives exactly one chunk: the whole text. |
| Chunker.ShortTextMaySplit | rag/ingest.py:40-45 | A text longer than one stride but no longer than the window gives the whole text as its first chunk, and the loop visits at least two cursors. |
| Chunker.AlphaBetaGamma | rag/ingest.py:36-46 | An example: a 16-character text with window 10 and overlap 4 gives three chunks, the last one a suffix already covered. |
| Corpus.ExtractPages | rag/ingest.py:21-33 | The pages kept are exactly the non-blank pages read before any error. Each keeps its 1-based number and its text, and page numbers strictly increase. |
| Corpus.NonBlankPagesSound | rag/ingest.py:26-29 | Every kept page is a non-blank page of the input, under its own number. |
| Corpus.NonBlankPagesComplete | rag/ingest.py:26-29 | Every non-blank page of the input is kept. |
| Corpus.NonBlankPagesOrdered | rag/ingest.py:26-29 | Kept pages come in increasing page order. |
| Corpus.BuildCorpus | rag/ingest.py:82-116 | The three lists have the length of the reference entry list. Position `k` holds that entry's text and metadata, and the id `doc_k`. |
| Corpus.AddPage | rag/ingest.py:104-114 | Appending one page's chunks extends the lists by that page's entries. `chunk_index` counts from 0 within the page, and ids continue the global counter. |
| Corpus.AddFile | rag/ingest.py:100-116 | Appending one file extends the lists by the entries of its pages, page after page. |
| Corpus.CorpusEntriesProvenance | rag/ingest.py:96-114 | Every entry is the chunk at position `chunk_index` of the chunk list of an extracted page of some file, and carries that file's name and page number. |
| Corpus.CorpusEntryOrigin | rag/ingest.py:96-116 | Every entry's text is non-blank and at most 1000 characters long. It is a chunk of a non-blank page read from the file named in its metadata. |
| Corpus.CorpusEntriesComplete | rag/ingest.py:100-114 | Nothing is lost in the flattening: chunk `c` of every extracted page of every file is an entry, tagged with the file's name, the page number and `chunk_index` `c`. |
| Corpus.ChunkIndexRestarts | rag/ingest.py:104-114 | `chunk_index` restarts at 0 on each page. An entry with a non-zero index directly follows the entry of the same file and page whose index is one lower. |
| Corpus.DocIdRoundTrip | rag/ingest.py:113 | Every id `doc_<n>` reads back as `n`. |
| Corpus.DocIdInjective | rag/ingest.py:113-114 | Distinct counter values give distinct ids. |
| Batcher.SubmitBatches | rag/ingest.py:123-143 | The loop over `range(0, n, 100)` submits `ceil(n / 100)` batches, and batch `k` is the slice `[100k, 100k + 100)` of each list. The progress total is `n`. |
| Batcher.BatchShape | rag/ingest.py:133-136 | Slices cut at the cursors of `range(0, n, size)` are the slices at `k * size`, and there are `ceil(n / size)` of them. |
| Batcher.BatchSizes | rag/ingest.py:133-136 | Every batch cut at a cursor of `range(0, n, size)` holds 1 to `size` aligned records. |
| Batcher.BatchesJoin | rag/ingest.py:133-142 | The batches, joined in submission order, give back the three full lists: every record is submitted once, in order. |
| Ingest.IngestDocuments | rag/ingest.py:49-148 | With no files, nothing is called. Otherwise the run deletes and then creates the collection, followed by `ceil(n / 100)` `add` calls of 1 to 100 aligned records. Whatever the store held before, the collection then holds exactly the corpus. The report gives the chunk and file counts, or says there was no text. |
| Ingest.Replaces | rag/ingest.py:70-80 | Deleting, recreating and filling a collection leaves exactly the added batches in it, whatever was stored before. |
| Ingest.ReplaceIdempotent | rag/ingest.py:70-143 | Running the same reset-and-fill calls twice leaves the collection as one run left it. |
| Ingest.ApplyAdds | rag/ingest.py:138-142 | A run of `add` calls appends the concatenation of their batches to the collection. |
| Display.Truncate | rag/query.py:79 | The display text has at most 503 characters. It equals the document when that has at most 500 characters, and otherwise is the document's first 500 characters followed by `"..."`. |
| Display.CardsShape | rag/query.py:73-79 | There is one card per zipped triple, as many as the shortest list. Card `i` pairs the i-th document, metadata and distance, with rank `first + i`. |
| Display.DisplayRanks | rag/query.py:63-79 | For a well-formed answer, no documents gives the "no results" notice. Otherwise the header counts the documents, and ranks run `1..m` in store order with `m` the shortest list's length. |
| Display.CardDefaults | rag/query.py:73-75 | A card shows the stored source and page when the match's metadata has them. Otherwise it shows `"Unknown"` for the source and `"?"` for the page. |
| Display.DisplayMalformed | rag/query.py:63-65 | A key holding an empty outer list raises. The keys are read in the order documents, metadatas, distances, so the first such key is the one reported. |
| Display.DisplayCounts | rag/query.py:63-73 | For any answer whose keys do not raise, a missing key reads as an empty list. Without documents, the "no results" notice is shown. Otherwise the header counts the documents and there are as many cards as the shortest list read. With documents but no metadata or no distances, the header is followed by no card. |
| Display.CardsOrdered | rag/query.py:73-76 | When the store's distances ascend, the cards' similarities do not increase. |
| Session.StopIndexFirst | rag/query.py:103-115 | The stop index is the first input that is an interrupt or an exit keyword: no input before it stops the loop. |
| Session.SessionQueries | rag/query.py:103-120 | The loop queries exactly the stripped, non-empty lines before the first stop, in order, each with top-k 5. |
| Session.QueriesWellFormed | rag/query.py:105-120 | Every question queried is stripped, non-empty and not an exit keyword, and uses top-k 5. |
| Session.NothingAfterStop | rag/query.py:106-115 | Nothing typed after an interrupt or exit keyword is ever queried. |
| Session.RunConcat | rag/query.py:103-123 | Running a script in two parts is the same as running it whole. |
| Session.CliQueries | rag/query.py:149-153 | A missing collection stops the run before any query. With `--interactive`, or without a non-empty question, the run sends exactly the interactive loop's queries over the script. Otherwise it sends exactly one query: the question as given, with the user's top-k. |
| Session.CliModes | rag/query.py:149-153 | Single-shot mode never reads the script. Interactive mode ignores the user's top-k, and every query it sends uses the default. |

## Left out

- PDF reading (PyMuPDF) is not modelled. A file is given as its page texts plus the index at which reading raises, if it does.
- The vector store is left out: the Chroma client, the embedding model and nearest-neighbour search. Ingestion is modelled as the calls it makes and what they leave behind. A query's answer is an input to `Display.DisplayResults`, and queries are the `Query` values sent.
- The rich console, panels, progress bars and the `:.2%` rendering of the similarity are output only and are left out.
- `argparse` is left out; parsed arguments are given as an `Args` value.
- `sys.exit(1)` from `get_collection` becomes the `CollectionMissing` outcome. The two ways the collection can be missing (no directory, unknown name) are one boolean.
- `collection.count()` and the "Loaded N chunks" banner of the interactive mode are display only and are left out.
- The order in which `glob` lists PDF files is left out; the files are taken as a given sequence.
- A failing `add` call (an exception from the store) is left out.
- A failing `delete_collection` is left out: the model's delete always succeeds. The source swallows every exception from the delete (rag/ingest.py:71-74), not only the one for an absent collection. It then calls `create_collection` (rag/ingest.py:76) whether or not the delete happened.
- Distances and similarities are Python floats (rag/query.py:65, 76). The model uses exact `real`, so the rounding of `1 - dist` is not modelled.
- Session.SessionQueries: assumes every `collection.query` and `display_results` call in the interactive loop returns. Only `console.input` is guarded (rag/query.py:104-108). An exception from the query (rag/query.py:117-120) or from `display_results` (rag/query.py:123), including the `IndexError` of `Display.DisplayMalformed` or an interrupt during a query, ends the run right after that query. The model keeps asking instead.
- Session.ExitIgnoringCase: covers ASCII letters only. Python's `str.lower` also folds other alphabets. The exit keywords are ASCII, so this matters only for inputs whose Unicode lowercase form is `quit`, `exit` or `q`.
- Chunker.ChunkText: requires `overlap < chunk_size`. The source does not check this, and with `overlap >= chunk_size` its loop never ends. No error value is modelled for that case.
- Chunker.Coverage: is stated for `0 <= overlap` only. With a negative overlap the source skips characters between windows.
- Display.DisplayRanks: is stated for answers whose three keys each hold exactly one list. Missing keys and empty outer lists are covered by `Display.DisplayMalformed` and `Display.DisplayCounts`.

Behaviours of the code that are easy to get wrong:

- `chunk_text` is guaranteed to return a single chunk only when the text is
  no longer than one stride (`chunk_size - overlap`). A text that fits one
  window but is longer than one stride is visited at least twice, so a
  suffix chunk can follow the whole text (`Chunker.ShortTextMaySplit`).
- A reading error in `extract_text_from_pdf` keeps the pages read before it,
  instead of skipping the whole file.
- With no PDF files, `ingest_documents` returns before the collection is
  deleted, so the store is left untouched.
- Chunks are not deduplicated: the trailing suffix chunks of a page overlap
  earlier ones.
- A document of exactly 503 characters that ends in `"..."` is displayed
  unchanged, although it is longer than 500 characters (`Display.Truncate`).
