# DevFlow retrieval core, modelled in Dafny

DevFlow is a personal knowledge assistant. It ingests documents into a vector
store and answers questions from them. There are four kinds of source: uploaded
files, Chrome bookmark exports, web search results and typed text. This project
models the code that turns those sources into indexed chunks and answers:

- the **indexer**: word-window chunking, MD5-derived chunk ids, and the three
  aligned chunk / metadata / id lists handed to the store;
- the **retriever**: the in-memory point collection, with adding, searching,
  deleting by source and counting;
- the **connectors**:
  - the Chrome bookmark walk;
  - PDF / DOCX / TXT text extraction and dispatch on the file name;
  - the web search result mapping, page-text cleanup, truncation and the
    keep-if-content filter;
- the **generator**: the API-key check, the numbered context blocks, the
  prompt template and the answer envelope;
- the **upload form's** client-side check (`handleFileChange`): extension and
  size validation and the state it moves to.

Each Python or JavaScript file is one module. Three shared modules hold the
helpers:

- `Wrappers`: `Option`, `Result`, `ValueError`;
- `Text`: Python `str` semantics, covering
  - `isspace` with CPython's whitespace set, `split`, `join`, `strip`,
    `splitlines`;
  - ASCII `lower`, `endswith`, slicing with negative bounds, `str(n)`;
- `Json`: the dynamically typed values the code walks, and `dict.get`.

Foreign code becomes a function parameter:

- the sentence-transformer embedding, Qdrant's cosine score and ranking;
- `hashlib.md5(...).hexdigest()`;
- the PDF and DOCX parsers and the strict UTF-8 decoder;
- the HTTP responses, BeautifulSoup's text extraction and the Gemini call.

The rest is written out:

- Python's `try`/`except` is an `Option` or `Result` result. Anything the
  code catches and turns into `[]` or `""` is `None`; anything it raises is
  `Failure(ValueError(message))`, with the code's message.
- `uuid4` point ids are modelled as a counter, so a fresh id is one never
  minted before.
- Latin-1 decoding maps every byte to the code point of the same value. So
  the inner `except` of `extract_text_from_txt` can never be reached.

The `prepare_documents` loop appends to three lists at once. Each list is
modelled as its own pass: `ZipConcat` concatenates one per-text *piece*
(chunks, metadata records or ids) over the zip of texts, titles and urls.
`ZipConcatAt` proves once for every piece where an entry lands, and
`PrepareAllLayout` applies it to the three pieces.

Some behaviour of the code is easy to misread. The model states what the
code does:

- **Chunking with `overlap >= chunk_size`.** A zero step makes `range` raise
  `ValueError`, and a negative step gives no chunks (`Indexer.ChunkText`).
- **Short texts.** There is one chunk per start `0, step, 2*step, ...` below
  the word count. So a text of at most `chunk_size` words can give several
  chunks (`Indexer.ShortTextSeveralChunks`).
- **Ids.** Adding never replaces a stored point. Every point gets a fresh
  `uuid4` and the caller's ids are ignored, so re-adding the same chunks
  stores them twice (`Retriever.AddIgnoresCallerIds`,
  `Retriever.ReAddAccumulates`).
- **Search results.** `search` returns Qdrant's hits in Qdrant's order. Their
  cosine similarity is reported as `"distances"`.
- **Deleting.** `delete_by_source` returns nothing. The change in `count()` is
  stated by `Retriever.DeleteCount`.
- **Error handling.** The bookmark parser, web search and scraper print an
  exception and return `[]` or `""`.

## Model

| member | source | states |
|---|---|---|
| Indexer.ChunkText | backend/rag/indexer.py:9-16 | chunking fails exactly when `chunk_size == overlap` (zero `range` step) |
| Indexer.ChunkTextWindows | backend/rag/indexer.py:9-16 | for `0 < chunk_size` and `overlap < chunk_size` the chunks are exactly the word windows: as many as there are starts `0, step, ...` below the word count, chunk `j` being the words from `j * step` on (at most `chunk_size` of them) joined by spaces |
| Indexer.NumWindowsIsCeiling | backend/rag/indexer.py:12 | the number of window starts below `n` is `ceil(n / step)` |
| Indexer.ChunkCount | backend/rag/indexer.py:10-16 | a text of `n` words gives `ceil(n / step)` chunks |
| Indexer.ChunkWords | backend/rag/indexer.py:10-13 | splitting chunk `j` again gives back exactly its window of the text's words, 1 to `chunk_size` of them |
| Indexer.ChunksCoverText | backend/rag/indexer.py:10-15 | coverage: every word of the text occurs in some chunk, at the offset its index predicts |
| Indexer.WindowsOverlap | backend/rag/indexer.py:12-13 | a full window from offset `step` on equals the first `size - step` words of the next window |
| Indexer.ChunksOverlap | backend/rag/indexer.py:12-13 | the last `overlap` words of a full chunk are the first `overlap` words of the next chunk |
| Indexer.ChunksNonEmpty | backend/rag/indexer.py:13-15 | no chunk is the empty string |
| Indexer.BlankTextHasNoChunks | backend/rag/indexer.py:10-16 | an empty or whitespace-only text gives no chunks |
| Indexer.ShortTextSeveralChunks | backend/rag/indexer.py:12-15 | a text of more than `step` and at most `chunk_size` words still gives at least two chunks |
| Indexer.GenerateId | backend/rag/indexer.py:18-20 | an id is the prefix, `_`, then 16 lower-case hex digits |
| Indexer.IdPrefixRecoverable | backend/rag/indexer.py:20 | the prefix is the id without its last 17 characters |
| Indexer.IdsCollideIffDigestPrefixesAgree | backend/rag/indexer.py:19-20 | two ids with one prefix are equal exactly when the digests agree on their first 16 hex digits |
| Indexer.ChunkMetadata | backend/rag/indexer.py:34-41 | the record has exactly the six keys, with the title, `url or ""`, the source id and type, the chunk index and the chunk count |
| Indexer.ZipConcatAt | backend/rag/indexer.py:28-33 | in a list built text by text, entry `i` of text `t`'s piece sits at the chunk count of the texts before `t`, plus `i` |
| Indexer.ZipConcatLength | backend/rag/indexer.py:28-33 | a list built text by text, one entry per chunk, is as long as all the chunks together |
| Indexer.PrepareAll | backend/rag/indexer.py:22-42 | the three lists are equally long, as many as the chunks of the zipped texts, and every record carries the call's `source_id` and `source_type` |
| Indexer.PrepareDocuments | backend/rag/indexer.py:22-42 | the same for the default window of 500 words overlapping by 50 |
| Indexer.PrepareAllLayout | backend/rag/indexer.py:28-41 | chunk `i` of text `t` is at the same position in all three lists; its record has text `t`'s title and url, index `i` and that text's chunk count; its id is `generate_id(f"{url}_{i}")` |
| Indexer.PrepareDocumentsLayout | backend/rag/indexer.py:28-41 | the same layout for the default chunking |
| Indexer.ChunkKeysDistinct | backend/rag/indexer.py:31 | the digest inputs `f"{url}_{i}"` of one url are distinct for distinct `i` |
| Indexer.IdsIgnoreChunkText | backend/rag/indexer.py:29-33 | ids do not depend on the chunk text: texts chunking into equally many pieces under the same urls get the same ids |
| Retriever.NewCollection | backend/rag/retriever.py:7-19 | a new in-memory collection is empty and valid |
| Retriever.Payload | backend/rag/retriever.py:34 | the payload has the metadata's keys plus `"text"`; `"text"` maps to the document, every other key keeps its value |
| Retriever.NewPoints | backend/rag/retriever.py:29-35 | one point per zipped triple, the `k`-th with a fresh id, the embedding of document `k` and payload `k` |
| Retriever.AddDocuments | backend/rag/retriever.py:21-41 | adding appends one point per zipped triple and keeps every stored point in place |
| Retriever.AddPreservesValid | backend/rag/retriever.py:30-35 | after adding, stored ids are still distinct and minted |
| Retriever.AddIgnoresCallerIds | backend/rag/retriever.py:21-35 | the caller's ids matter only through their number |
| Retriever.ReAddAccumulates | backend/rag/retriever.py:29-41 | adding the same chunks twice doubles them: the first copies stay in place, and for every k the k-th second copy has the k-th first copy's payload under another id |
| Retriever.Hits | backend/rag/retriever.py:51-55 | the first `limit` of the in-range positions the ranking lists, in rank order, each the stored point there scored against the query vector |
| Retriever.WithoutText | backend/rag/retriever.py:61 | the payload without `"text"`, all other entries kept |
| Retriever.Shape | backend/rag/retriever.py:57-68 | one entry per hit in each list: the stored text (or `""`), the payload without `"text"`, and the score |
| Retriever.Search | backend/rag/retriever.py:43-68 | the three lists have one index-aligned entry per hit, in rank order: the hit's text, its metadata without `"text"`, and its score. All three are empty exactly when there is no hit |
| Retriever.SearchFromStoredPoints | backend/rag/retriever.py:43-68 | every search entry is the text, metadata and score of some stored point |
| Retriever.PayloadRoundTrip | backend/rag/retriever.py:34 | a document stored with metadata without `"text"` comes back from a hit as exactly that document and metadata |
| Retriever.PayloadTextOverridden | backend/rag/retriever.py:34 | a metadata `"text"` entry is overwritten by the document and is lost |
| Retriever.AddedPointRoundTrip | backend/rag/retriever.py:21-35 | the `k`-th added point shapes into the `k`-th document and metadata |
| Retriever.Surviving | backend/rag/retriever.py:72-81 | a point survives exactly when it does not match the `source_id` filter |
| Retriever.DeleteBySource | backend/rag/retriever.py:70-81 | after deleting, the stored points are exactly the earlier ones that do not match the filter |
| Retriever.DeleteCount | backend/rag/retriever.py:70-85 | `count()` drops by exactly the number of matching points |
| Retriever.DeleteKeepsOrder | backend/rag/retriever.py:70-81 | the surviving points keep their insertion order |
| Retriever.DeleteKeepsOthers | backend/rag/retriever.py:70-81 | when no point matches, deleting changes nothing |
| Retriever.DeleteIdempotent | backend/rag/retriever.py:70-81 | deleting a source twice is deleting it once |
| Retriever.DeletePreservesValid | backend/rag/retriever.py:70-81 | deleting keeps the stored ids distinct and minted |
| Retriever.SearchAfterDelete | backend/rag/retriever.py:70-81 | after deleting source `s` no search returns metadata with `source_id == s` |
| Retriever.DeleteScenario | backend/rag/retriever.py:70-85 | points of sources 1, 1 and 2: deleting source 1 leaves one point, of source 2 |
| Bookmarks.ExtractSucceedsIffWellFormed | backend/connectors/bookmarks.py:12-21 | the walk raises exactly on trees that are not well formed |
| Bookmarks.ExtractAllSucceedsIffWellFormed | backend/connectors/bookmarks.py:19-21 | the children loop raises exactly when some child's walk raises |
| Bookmarks.ExtractIsPreOrder | backend/connectors/bookmarks.py:12-21 | a walk that does not raise collects one entry per url node, in pre-order |
| Bookmarks.ExtractAllIsPreOrder | backend/connectors/bookmarks.py:19-21 | the same for a list of children, left to right |
| Bookmarks.ParseChromeBookmarks | backend/connectors/bookmarks.py:7-29 | an unreadable or undecodable file gives `[]` |
| Bookmarks.ParseOfDictRoots | backend/connectors/bookmarks.py:22-29 | with `roots` a dict, the result is the root loop's entries, or `[]` if it raises |
| Bookmarks.VisitRootsPresent | backend/connectors/bookmarks.py:23-25 | a present folder contributes its walk's entries before the later folders' |
| Bookmarks.VisitRootsAbsent | backend/connectors/bookmarks.py:23-24 | an absent folder contributes nothing |
| Bookmarks.VisitRootsFails | backend/connectors/bookmarks.py:23-25 | one folder that raises makes the whole loop raise |
| Bookmarks.VisitThreeRoots | backend/connectors/bookmarks.py:23-25 | three present folders give the bookmark bar's entries, then other's, then synced's |
| Bookmarks.ParseVisitsRootsInOrder | backend/connectors/bookmarks.py:12-26 | for well-formed folders, the result is the url nodes of the three folders in that order, each in pre-order |
| Bookmarks.OtherRootsIgnored | backend/connectors/bookmarks.py:23-24 | root keys other than the three folders do not matter |
| Bookmarks.MissingRootsGiveNothing | backend/connectors/bookmarks.py:22-26 | no `roots`, or none of the three folders, gives `[]` |
| Bookmarks.NonDictRootsGiveNothing | backend/connectors/bookmarks.py:22-29 | `roots` that is not a dict gives `[]` |
| Bookmarks.NonDictDataGivesNothing | backend/connectors/bookmarks.py:10-29 | a file whose JSON is not an object gives `[]` |
| Bookmarks.FailingFolderDiscardsAll | backend/connectors/bookmarks.py:23-29 | one malformed folder discards every bookmark, the other folders' too |
| Bookmarks.ChildrenOfUrlNodeVisited | backend/connectors/bookmarks.py:13-21 | children of a url node are walked too, after it |
| FileUpload.PageText | backend/connectors/file_upload.py:12-14 | the page loop's text is every page followed by a newline |
| FileUpload.PageTextAppend | backend/connectors/file_upload.py:13-14 | the text of two runs of pages is the two texts concatenated |
| FileUpload.PageTextLines | backend/connectors/file_upload.py:13-14 | pages without line boundaries split back into the pages |
| FileUpload.ExtractPdf | backend/connectors/file_upload.py:8-17 | the stripped page text, or `ValueError("Error reading PDF: ...")` exactly when the parser fails |
| FileUpload.ExtractDocx | backend/connectors/file_upload.py:20-27 | the stripped newline-joined paragraphs, or `ValueError("Error reading DOCX: ...")` exactly when the parser fails |
| FileUpload.Latin1 | backend/connectors/file_upload.py:37 | Latin-1 decoding maps byte `b` to code point `b` |
| FileUpload.Latin1RoundTrip | backend/connectors/file_upload.py:37 | Latin-1 decoding loses nothing |
| FileUpload.ExtractTxt | backend/connectors/file_upload.py:30-39 | never fails; the stripped UTF-8 text, or the stripped Latin-1 text when UTF-8 decoding fails |
| FileUpload.DetectType | backend/connectors/file_upload.py:47-60 | a chosen type's suffix ends the lower-cased name |
| FileUpload.DetectTypeIff | backend/connectors/file_upload.py:47-62 | the type chosen is `t` exactly when the lower-cased name ends in `t`'s suffix |
| FileUpload.SuffixesExclusive | backend/connectors/file_upload.py:49-57 | no name ends in two of `.pdf`, `.docx`, `.txt` |
| FileUpload.ProcessFile | backend/connectors/file_upload.py:42-62 | an unsupported name raises the unsupported-type error. Otherwise the result is the dispatched extractor's: it succeeds exactly when that extractor does, with its text (no whitespace at either end) and the type's name, and fails with its error |
| FileUpload.LowerIdempotent | backend/connectors/file_upload.py:47 | lower-casing twice is lower-casing once |
| FileUpload.ProcessFileCaseInsensitive | backend/connectors/file_upload.py:47 | names equal up to ASCII case are processed alike |
| FileUpload.UpperCaseExtension | backend/connectors/file_upload.py:47-51 | `REPORT.PDF` is read as a PDF |
| FileUpload.UnsupportedIgnoresReaders | backend/connectors/file_upload.py:61-62 | an unsupported name fails whatever the readers would do |
| FileUpload.TxtNeverFails | backend/connectors/file_upload.py:57-59 | a `.txt` name always succeeds, as `TXT`, with the text `extract_text_from_txt` gives |
| Generator.NewGemini | backend/rag/generator.py:6-9 | the key is the argument if non-empty, else the environment's; with neither, `ValueError("GEMINI_API_KEY not found")` |
| Generator.ExplicitKeyWins | backend/rag/generator.py:7 | a non-empty key passed in wins over the environment |
| Generator.SourceBlock | backend/rag/generator.py:23 | a block is the document plus its number plus 12 template characters long |
| Generator.ContextText | backend/rag/generator.py:21-23 | the context text is empty exactly when there are no documents |
| Generator.ContextTextAppend | backend/rag/generator.py:21-23 | the context of two runs of documents is the first run's blocks then the second's, numbering continued |
| Generator.ContextTextSnoc | backend/rag/generator.py:22-23 | one more document adds one block numbered after the others |
| Generator.Prompt | backend/rag/generator.py:25-36 | the prompt's length is the template's plus the context's plus the query's |
| Generator.PromptQueryRecoverable | backend/rag/generator.py:25-36 | the query and the context text can be read back off the prompt at fixed places |
| Generator.GenerateAnswer | backend/rag/generator.py:13-51 | no context: the fixed answer with no sources; otherwise the sources and either the model's text or `"Error: "` plus the message with the error flag |
| Generator.EmptyContextSkipsModel | backend/rag/generator.py:14-19 | with no context the model is not consulted |
| Generator.AnswerDependsOnPrompt | backend/rag/generator.py:21-44 | two contexts with the same context text give the same answer |
| WebSearch.MapItems | backend/connectors/web_search.py:32-37 | the loop succeeds exactly when every item is an object, one result per item with its three fields |
| WebSearch.Search | backend/connectors/web_search.py:11-42 | a missing or empty key raises `BRAVE_API_KEY not set`; a failed request gives `[]` |
| WebSearch.SearchTakesFirstItems | backend/connectors/web_search.py:29-39 | for a well-shaped answer, the results are the first `count` items, in order |
| WebSearch.NonObjectItemDiscardsAll | backend/connectors/web_search.py:32-42 | one item that is not an object discards all results |
| WebSearch.KeptLines | backend/connectors/web_search.py:63 | at most one kept line per line, none of them empty |
| WebSearch.KeptLinesClean | backend/connectors/web_search.py:63 | kept lines are stripped and free of line boundaries |
| WebSearch.CleanLinesSplit | backend/connectors/web_search.py:63-64 | the cleaned text splits back into the kept lines |
| WebSearch.CleanLinesIdempotent | backend/connectors/web_search.py:63-64 | cleaning twice is cleaning once |
| WebSearch.Truncate | backend/connectors/web_search.py:67-68 | a text within `max_length` is unchanged; a longer one is its first `max_length` characters then `...` |
| WebSearch.TruncateBound | backend/connectors/web_search.py:67-68 | a truncated text is at most `max_length + 3` long and starts with the text's first `max_length` characters |
| WebSearch.ScrapeContent | backend/connectors/web_search.py:44-73 | a failed fetch gives `""`; a short page gives its cleaned text |
| WebSearch.BlankPageGivesNothing | backend/connectors/web_search.py:63-70 | a page of blank lines gives `""` |
| WebSearch.Enrich | backend/connectors/web_search.py:79-88 | at most one record per result, all with non-empty content; which records and in what order is stated by `WebSearch.EnrichMembership` and `WebSearch.EnrichAppend` |
| WebSearch.SearchAndScrape | backend/connectors/web_search.py:75-90 | raises exactly when the search raises, with its error; otherwise the enrichment of the search's results |
| WebSearch.EnrichCount | backend/connectors/web_search.py:80-88 | one record per result whose page gives content |
| WebSearch.EnrichMembership | backend/connectors/web_search.py:80-88 | a record is in the output exactly when its result is in the input and its page gave that non-empty content |
| WebSearch.EnrichKeepsAllWhenAllHaveContent | backend/connectors/web_search.py:80-88 | when every page gives content, every result is kept, in order |
| WebSearch.EnrichAppend | backend/connectors/web_search.py:79-88 | enriching two runs of results is enriching each and concatenating, so the kept results keep the search's order |
| WebSearch.EnrichOne | backend/connectors/web_search.py:81-88 | one result is kept with its title, url, description and content exactly when its page gave content |
| UploadForm.LastIndexOf | frontend/src/components/FileUpload.jsx:16 | the last position of the character, or -1 when it does not occur |
| UploadForm.Substring | frontend/src/components/FileUpload.jsx:16 | a negative start takes the whole string; an in-range start takes the suffix |
| UploadForm.HandleFileChange | frontend/src/components/FileUpload.jsx:10-31 | no file changes nothing; the upload starts exactly when the extension is valid and the size is at most 10 MiB, with message and error cleared; a rejected file changes only the error |
| UploadForm.TypeCheckedFirst | frontend/src/components/FileUpload.jsx:18-21 | a bad type gets the type error whatever the size |
| UploadForm.SizeLimitIsInclusive | frontend/src/components/FileUpload.jsx:24-27 | exactly 10485760 bytes passes; one byte more gets the size error |
| UploadForm.NoDotRejected | frontend/src/components/FileUpload.jsx:15-21 | a name without a dot is rejected, its "extension" being the whole lower-cased name |
| UploadForm.ExtensionIsSuffix | frontend/src/components/FileUpload.jsx:16 | the extension taken is a suffix of the lower-cased name |
| UploadForm.ServerAcceptedPassesForm | frontend/src/components/FileUpload.jsx:15-18 | under lower-casing that keeps a name's length, every name the server dispatches to a reader passes the form's type check |
| UploadForm.FormAgreesWithServer | frontend/src/components/FileUpload.jsx:15-18 | under lower-casing that keeps a name's length, the form accepts a name's type exactly when `process_file` dispatches it to a reader |
| Text.Words | backend/rag/indexer.py:10 | `split()` yields non-empty words without whitespace |
| Text.WordsOfJoin | backend/rag/indexer.py:13 | space-joined words split back into the same words |
| Text.WordsEmptyIffAllSpace | backend/rag/indexer.py:10 | a text has no words exactly when it is all whitespace |
| Text.Strip | backend/connectors/file_upload.py:15 | `strip()` drops exactly the leading and trailing whitespace runs |
| Text.StripOfUnique | backend/connectors/file_upload.py:15 | that characterisation determines the stripped text |
| Text.StripIdempotent | backend/connectors/web_search.py:63 | stripping twice is stripping once |
| Text.StripIsInfix | backend/connectors/web_search.py:63 | the stripped text is a contiguous piece of the input |
| Text.SplitLines | backend/connectors/web_search.py:63 | `splitlines()` yields lines without line boundaries |
| Text.SplitLinesOfJoin | backend/connectors/web_search.py:64 | non-empty lines without boundaries, joined by `"\n"`, split back into themselves |
| Text.Lower | backend/connectors/file_upload.py:47 | lower-casing maps each character and keeps the length |
| Text.ParseNatToString | backend/rag/indexer.py:31 | the decimal rendering of `i` parses back to `i` |
| Text.NatToStringInjective | backend/rag/indexer.py:31 | distinct chunk indices render differently |
| Json.Get | backend/connectors/bookmarks.py:13-17 | `dict.get` gives the stored value when the key is present and the default otherwise |

## Left out

- **Embedding and storage.** The embedding model, Qdrant's cosine score and its
  nearest-neighbour ranking are foreign calls and are parameters. Search
  returns the points the ranking names, in its order. That this order is by
  decreasing similarity is Qdrant's promise and is not stated. Qdrant's check of vector dimensions is not modelled,
  and neither is the 384 of the collection's configuration.
- Retriever.Search: a negative `n_results` is not modelled. Qdrant rejects a negative
  `n_results`; the model takes `nat`.
- Retriever.Count: `count()` reads `points_count` and carries no contract of its own;
  how deleting changes it is stated by `Retriever.DeleteCount`.
- **Failing embeddings.** An exception raised by the embedding call is not
  modelled.
- UploadForm.FormAgreesWithServer: holds only where lower-casing keeps the name's length, as `Text.Lower` does.
  JavaScript lower-cases `"İ.pdf"` to six code units, `"i̇.pdf"`, while
  `lastIndexOf('.')` on the original name is 1. The form's extension is
  then `"\u0307.pdf"`, so the form rejects a name that `process_file`
  accepts.
- UploadForm.ServerAcceptedPassesForm: fails on the same `"İ.pdf"`, for the same reason.
- Text.Lower: only ASCII letters are lower-cased. Python's `str.lower` and
  JavaScript's `toLowerCase` also map other letters, and some of them change
  length. `UploadForm.Extension` relies on the length being unchanged.
- **Numbers.** JSON numbers are integers. Floats (`date_added`, scores as
  `float`) appear only as opaque values or `real`.
- **Bookmark nesting.** Python's recursion limit on deeply nested bookmark
  folders is not modelled.
- **I/O and rendering.** Not modelled:
  - the HTTP requests, the status check and BeautifulSoup's HTML-to-text
    conversion (page text arrives as `Option<string>`);
  - opening and decoding the bookmark file;
  - the upload request in `FileUpload.jsx` and all React rendering;
  - the printed diagnostics of the `except` branches.
- **Other files.** `backend/database/db.py`, `backend/main.py` and
  `backend/connectors/files.py` are not part of this model.
- Generator.GenerateAnswer: the model call is `string -> Result`. An
  exception raised while reading `response.text` counts as a failure of that
  call.
- WebSearch.ScrapeContent: the long-page case is stated by
  `WebSearch.Truncate` rather than repeated here.
