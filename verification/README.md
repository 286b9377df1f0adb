# Doc_chat_langgraph ingest and agent rules in Dafny

This project models the deterministic core of a document question-answering
application. The application uploads documents, splits them into chunks,
indexes them for hybrid retrieval and answers questions with a ReAct agent.
The parts modelled are:

- **The document processor** (`DocumentProcessor` in
  `document_processor/file_handler.py`):
  - the batch size check;
  - the content-addressed chunk cache, with its expiry by file age;
  - dispatch on the file extension;
  - the three-step PDF fallback chain;
  - assembly of the PDF page text;
  - keep-first de-duplication of chunks across the files of a batch, by a digest of the chunk text;
  - isolation of a file whose handling raises.
- **The retriever builder** (`RetrieverBuilder.build_hybrid_retriever` in
  `retriever/builder.py`):
  - input validation;
  - filtering out blank documents;
  - building the BM25 and vector components, in that order, from the same filtered list and under the configured weights.
- **The ReAct agent** (`react_agent_fixed.py`):
  - the keyword clothing classifier;
  - the tool-trigger rule of the `agent` node;
  - the `continue`/`end` edge and the graph loop it drives;
  - the Markdown rendering of a finished conversation.
- **The session helpers of the web interface** (`app.py`):
  - the example picker;
  - the input checks and the "re-index?" decision of `process_question`;
  - the answer preview and the five-entry history window;
  - `_get_file_hashes`.

The following are oracles: function-typed fields of a datatype passed in by the caller.

| Datatype | Oracles |
|---|---|
| `FileHandler.Collaborators` | SHA-256, `str.encode`, UTF-8 decoding, the LangChain splitters, pypdfium2, docling, the file system |
| `RetrieverBuilder.Backends` | Chroma and BM25 |
| `ReactAgent.Tools` | the Tavily search, `json.dumps`/`json.loads`, `str()` of search results, the chat model |

The clock is an integer number of seconds. A cache file is a map entry from digest to (modification time, unpickled record).

Modules and files:

| File | Module | Contents |
|---|---|---|
| `wrappers.dfy` | `Wrappers` | `Option`, `Result`, `Outcome` |
| `seqs.dfy` | `Seqs` | order-keeping filtering (`Keep`) and concatenation of what a function yields per element (`FlatMap`) |
| `text.dfy` | `Text` | the Python `str` operations the code uses: `isspace`, `lower`, `in`, `endswith`, `join`, slicing, `str(int)` |
| `dedup.dfy` | `Dedup` | keep-first de-duplication by key, for any element and key type |
| `file_handler.dfy` | `FileHandler` | the document processor |
| `builder.dfy` | `RetrieverBuilder` | the retriever builder |
| `react_agent.dfy` | `ReactAgent` | the agent |
| `app.dfy` | `App` | the interface helpers |

Behaviour of the code worth knowing:

- **Extraction never raises.** `_process_file` itself catches nothing, but every handler it calls does. The text handler, the docling handler and the last PDF strategy each catch their own failures and return `[]` (file_handler.py:108-110, 133-135, 216-218). A file is dropped from a batch only in four cases:
  - its bytes cannot be read;
  - a valid cache entry does not unpickle;
  - the cache file cannot be opened for writing;
  - `pickle.dump` raises while writing the cache file.
- **A failed pickle poisons the cache.** `open(path, "wb")` empties the file before `pickle.dump` runs (file_handler.py:224-228). When the dump raises, a truncated file is left under the digest with a fresh modification time. Until it expires, every later upload of the same bytes finds a valid entry that does not unpickle, and is dropped without being extracted again (file_handler.py:45-47, 60-62).
- **Empty results are cached.** An unsupported name, or an extraction that found nothing, stores `[]` under the digest of the bytes (file_handler.py:50-51). The same bytes uploaded again within the expiry get `[]` without any extraction.
- **Expiry uses the file's modification time.** The cache file's `st_mtime` decides expiry (file_handler.py:239). The timestamp pickled inside the file (file_handler.py:226) is never read.
- **The extension gate is case-sensitive.** The gate is `str.endswith` (file_handler.py:69), so `report.PDF` is skipped. The later `.lower()` (file_handler.py:73) therefore never changes anything.
- **A bare extension routes to docling.** For a file whose final path component is only `.md`, `.txt` or `.pdf`, the gate passes but `Path.suffix` is empty, so docling is chosen.

`recommend_clothing` and `call_model` lower-case with Python's `str.lower`.
The model lower-cases ASCII letters only. This gives the same answers for
every keyword the code looks for (`snow`, `freezing`, `rain`, `wet`, `hot`, `sunny`,
`cold`, `weather`, `news`, `current`, `today`, `latest`, `wear`). The only
non-ASCII code points that Python lower-cases to ASCII are:

- U+0130, which lower-cases to `i` followed by a combining dot;
- U+212A (Kelvin sign), which lower-cases to `k`.

No keyword contains `k`. The combining dot cannot occur inside a keyword, so a match through U+0130 is impossible.

## Model

| member | source | states |
|---|---|---|
| `Text.ContainsAt` | react_agent_fixed.py:36-45 | Python's `w in s` holds exactly when `w` is a prefix of some suffix of `s` |
| `Text.JoinKeepsParts` | app.py:610 | every part of a `sep.join(parts)` occurs in the joined text |
| `Text.JoinEmptyAppend` | react_agent_fixed.py:180 | `"".join` of two lists of parts one after the other is the join of the first followed by the join of the second |
| `Text.DecimalRoundTrip` | document_processor/file_handler.py:147 | reading back `str(n)` gives `n` |
| `Text.NatToStringInjective` | document_processor/file_handler.py:147 | distinct page numbers render as distinct headings |
| `Dedup.KeepFirstKeys` | document_processor/file_handler.py:54-58 | de-duplication loses no text digest |
| `Dedup.KeepFirstUnique` | document_processor/file_handler.py:54-58 | no two kept chunks share a digest |
| `Dedup.KeepFirstTakesFirst` | document_processor/file_handler.py:54-58 | every kept chunk is the first chunk of the input with its digest |
| `Dedup.KeepFirstOrdered` | document_processor/file_handler.py:54-58 | kept chunks appear in the order their digests first occur |
| `Dedup.KeepFirstAbsorbs` | document_processor/file_handler.py:54-58 | appending chunks whose digests were all seen changes nothing |
| `Dedup.KeepFirstTwice` | document_processor/file_handler.py:54-58 | de-duplicating a list followed by itself gives the de-duplication of the list |
| `Dedup.KeepFirstOfUnique` | document_processor/file_handler.py:54-58 | a list without repeated digests passes unchanged |
| `Dedup.KeepFirstIdempotent` | document_processor/file_handler.py:54-58 | de-duplicating a de-duplicated list changes nothing |
| `FileHandler.TotalSizeSums` | document_processor/file_handler.py:27 | the size sum succeeds exactly when every size can be read, and then equals the sum of the sizes |
| `FileHandler.ValidateFiles` | document_processor/file_handler.py:25-29 | the batch passes iff every size is known and their sum is at most the limit (a batch exactly at the limit passes); a batch over the limit is refused with the limit in whole MiB |
| `FileHandler.BaseNameIsLastComponent` | document_processor/file_handler.py:73 | the final path component ends the path, holds no `/`, and is either the whole path or preceded by a `/` |
| `FileHandler.SuffixOfGatedName` | document_processor/file_handler.py:69-73 | for a name ending in a gated extension, `Path.suffix` is that extension, or empty when the final component is the bare extension |
| `FileHandler.RouteOfGatedName` | document_processor/file_handler.py:67-85 | a gated name goes to its extension's handler, or to docling when its final component is the bare extension |
| `FileHandler.DispatchTable` | document_processor/file_handler.py:67-85 | names failing the case-sensitive gate are skipped; `.txt`/`.md` go to the text path, `.pdf` to the fallback chain, `.docx` to docling |
| `FileHandler.UpperCaseExtensionSkipped` | document_processor/file_handler.py:69-71 | `report.PDF` and `notes.Md` are skipped by the gate |
| `FileHandler.NonBlankPages` | document_processor/file_handler.py:142-147 | exactly the 1-based numbers of the pages with non-blank text, ascending |
| `FileHandler.PageSections` | document_processor/file_handler.py:142-147 | one section per non-blank page, in page order, each the page's text under its own `## Page k` heading |
| `FileHandler.ExtractWithPypdfium` | document_processor/file_handler.py:137-165 | raises iff pypdfium raises; otherwise the header split of the assembled text, or the recursive split exactly when the header split is empty |
| `FileHandler.FirstReturned` | document_processor/file_handler.py:112-135 | the position of the first strategy that returns: every earlier one raised |
| `FileHandler.FirstSuccess` | document_processor/file_handler.py:112-135 | the first strategy that returns decides the result, even an empty one; later ones are not run; when all raise, no chunks |
| `FileHandler.PdfFallbackOrder` | document_processor/file_handler.py:112-135 | pypdfium, then simple docling, then timed docling; which one decides, and `[]` after three failures |
| `FileHandler.ProcessTextFile` | document_processor/file_handler.py:87-110 | undecodable bytes yield nothing; a name ending in `.md` is split on headers, any other by the recursive splitter with window 1000 and overlap 200 |
| `FileHandler.ProcessWithDocling` | document_processor/file_handler.py:207-218 | a docling failure yields nothing; otherwise the header split of the exported Markdown |
| `FileHandler.ProcessFile` | document_processor/file_handler.py:67-85 | a skipped name runs no strategy and yields nothing; the text route yields the text handler's chunks, the PDF route the fallback chain's result, the docling route the docling handler's chunks; at most three strategies run, and only PDFs run more than one |
| `FileHandler.TextRouteSplitter` | document_processor/file_handler.py:73-106 | a name routed to the text path ends in exactly one of `.md` and `.txt`; that ending of the whole name picks the header splitter or the recursive splitter |
| `FileHandler.IsCacheValid` | document_processor/file_handler.py:235-240 | an entry is valid exactly when it exists and its file was modified after the cutoff of `CACHE_EXPIRE_DAYS` before now |
| `FileHandler.CacheExpiry` | document_processor/file_handler.py:235-240 | entries only age out: valid now means valid at every earlier time; an entry is invalid once the expiry has passed since its modification; an entry written now is valid iff the expiry is positive |
| `FileHandler.Store` | document_processor/file_handler.py:223-228 | a completed write stores the chunks stamped now and returns them; a failed open leaves the cache as it was; a failed dump leaves an entry stamped now that does not unpickle; the file is dropped in both failure cases |
| `FileHandler.HandleFile` | document_processor/file_handler.py:38-51 | a failure other than a failed dump leaves the cache unchanged; a failed dump leaves a corrupt entry stamped now under the file's digest; an unreadable file fails with nothing run; a valid hit runs nothing |
| `FileHandler.HandleFileFrame` | document_processor/file_handler.py:38-51 | a step changes at most the entry of the file's own digest: every other entry stays and no other key appears |
| `FileHandler.CacheHitSkipsExtraction` | document_processor/file_handler.py:45-47 | a valid hit returns the stored chunks with no strategy run, and an entry that does not unpickle drops the file instead of re-extracting |
| `FileHandler.CacheMissExtractsAndStores` | document_processor/file_handler.py:48-51 | a miss runs the extraction and stores its result under the digest of the bytes, stamped now; a failed open drops the file and leaves the cache; a failed dump drops the file and leaves an entry that does not unpickle |
| `FileHandler.DumpFailurePoisonsEntry` | document_processor/file_handler.py:43-62 | after a failed dump, a file with the same bytes, handled at any time before the expiry, is dropped as a corrupt entry with no strategy run |
| `FileHandler.StoredTimestampIgnored` | document_processor/file_handler.py:223-240 | two cache files differing only in the pickled timestamp give the same step |
| `FileHandler.IdenticalBytesShareEntry` | document_processor/file_handler.py:41-51 | after a file has gone through, a file with the same bytes is a hit on the same entry and runs no strategy |
| `FileHandler.AppendUnseen` | document_processor/file_handler.py:54-58 | the inner loop extends the keep-first de-duplication of the chunks seen so far and keeps `seen_hashes` equal to the digests of the output |
| `FileHandler.Process` | document_processor/file_handler.py:31-65 | a refused batch produces nothing; otherwise the chunks are the keep-first de-duplication of the per-file chunk lists in file order, with no two sharing a text digest |
| `FileHandler.RunAppend` | document_processor/file_handler.py:37-62 | handling `A + B` is handling `A`, then `B` from the cache `A` left |
| `FileHandler.FailedFileContributesNothing` | document_processor/file_handler.py:38-62 | a file whose handling raises contributes no chunks |
| `FileHandler.FailedFileIsInvisible` | document_processor/file_handler.py:38-62 | when a file's handling raises without writing the cache, the batch's chunks and final cache are those of the batch without that file |
| `FileHandler.DuplicateUploadCollapses` | document_processor/file_handler.py:37-58 | two uploads with the same bytes yield what the first alone yields |
| `FileHandler.RunPoisonedPair` | document_processor/file_handler.py:37-62 | two uploads with the same bytes whose first pickle fails are both dropped, and the corrupt entry stays for later batches |
| `FileHandler.MetadataIgnored` | document_processor/file_handler.py:55 | a chunk whose text already occurred is dropped whatever its metadata |
| `FileHandler.DistinctTexts` | document_processor/file_handler.py:54-58 | with a collision-free digest, no two output chunks have the same text |
| `RetrieverBuilder.ValidDocsExactly` | retriever/builder.py:26 | exactly the input documents with non-blank text are kept |
| `RetrieverBuilder.ValidDocsAppend` | retriever/builder.py:26 | filtering keeps the original order: the filter of a concatenation is the concatenation of the filters |
| `RetrieverBuilder.ValidDocsIdempotent` | retriever/builder.py:26 | filtering twice is filtering once |
| `RetrieverBuilder.BuildHybridRetriever` | retriever/builder.py:18-58 | empty input and all-blank input are refused before any index is built; success iff both backends build over the filtered list; the result is `[BM25, vector(k)]` over the same non-empty filtered list with the configured weights |
| `RetrieverBuilder.AllBlankRejected` | retriever/builder.py:26-29 | a non-empty list of blank documents is refused as having no valid document |
| `RetrieverBuilder.IndexesSeeOnlyContent` | retriever/builder.py:26-53 | both components are built over exactly the input documents with non-blank text |
| `ReactAgent.RecommendClothing` | react_agent_fixed.py:32-45 | the answer is always one of the five fixed advice strings |
| `ReactAgent.ClothingByPriority` | react_agent_fixed.py:36-45 | the answer is the advice of the highest-priority weather category the text signals |
| `ReactAgent.ClothingIgnoresCase` | react_agent_fixed.py:35 | the case of the input never matters |
| `ReactAgent.SignalsPersist` | react_agent_fixed.py:36-45 | appending text never withdraws a signalled category |
| `ReactAgent.ColdRainGetsRaincoat` | react_agent_fixed.py:36-39 | "cold rain" gets the raincoat |
| `ReactAgent.ShouldContinue` | react_agent_fixed.py:109-122 | "continue" iff the history is empty or ends in a tool message, "end" otherwise |
| `ReactAgent.CallModel` | react_agent_fixed.py:72-107 | no trigger word in the last message: the model answers; search error: one AI message "Tool error: …"; search success: its JSON as a tool message, plus clothing advice iff both "weather" and "wear" occur |
| `ReactAgent.Invoke` | react_agent_fixed.py:125-133 | a finished run extends the input and ends where `should_continue` says "end" |
| `ReactAgent.ContinueAfterTools` | react_agent_fixed.py:72-133 | after one agent step the graph goes round again iff a search succeeded |
| `ReactAgent.SearchRepeats` | react_agent_fixed.py:75-99 | when the search results' JSON itself triggers a search, the graph never ends, whatever the recursion limit |
| `ReactAgent.SampleQuestionLoops` | react_agent_fixed.py:75-99 | the question "Latest AI developments", answered by a result titled "AI today", never gets an answer |
| `ReactAgent.CallModelOnQuestion` | react_agent_fixed.py:72-107 | the corrected trigger: after a tool message the model answers and the graph then ends; otherwise the step is the as-written one |
| `ReactAgent.QuestionAnsweredInTwoSteps` | react_agent_fixed.py:72-133 | with the corrected trigger every question ends with an AI message within two agent steps |
| `Seqs.FlatMapAppend` | react_agent_fixed.py:140-169 | mapping each message to its contribution and concatenating distributes over concatenation of the messages |
| `ReactAgent.StepsAppend` | react_agent_fixed.py:140-165 | the process steps of a concatenated conversation are those of its parts, in message order |
| `ReactAgent.SectionsAppend` | react_agent_fixed.py:140-169 | the sections of a concatenated conversation are those of its parts, in message order |
| `ReactAgent.StepsEmptyIff` | react_agent_fixed.py:140-165 | there is no process step iff no message is a search or clothing tool message |
| `ReactAgent.Snippet` | react_agent_fixed.py:150 | the shown content is the first 180 characters of the result's content, or all of it when shorter |
| `ReactAgent.LinkOnlyWithUrl` | react_agent_fixed.py:151-157 | a result gets a link line iff its url is non-empty |
| `ReactAgent.Shown` | react_agent_fixed.py:148 | the first three results, or all of them when there are fewer |
| `ReactAgent.AtMostThreeHits` | react_agent_fixed.py:146-158 | results after the third never reach the rendered text |
| `ReactAgent.FormatResponse` | react_agent_fixed.py:135-181 | the response is the process block followed by the sections' text and nothing else |
| `ReactAgent.SectionsTextAppend` | react_agent_fixed.py:140-181 | the sections' text of a conversation `a + b` is the text of `a` followed by the text of `b`, so sections appear in message order with nothing between |
| `ReactAgent.SectionsTextOfMessage` | react_agent_fixed.py:141-169 | a single message contributes exactly its own rendered sections |
| `ReactAgent.EverySectionRendered` | react_agent_fixed.py:135-181 | every section of the conversation appears in the response |
| `ReactAgent.ProcessBlockIff` | react_agent_fixed.py:140-180 | the response opens with the "Agent Process" heading iff some message is a search or clothing tool message |
| `ReactAgent.StepsNumbered` | react_agent_fixed.py:174-178 | the `i`-th process step appears in the block under number `i + 1`, so steps are numbered 1..n in message order |
| `ReactAgent.NoStepsNoHeading` | react_agent_fixed.py:171-180 | without steps the response is empty or opens with a line break |
| `ReactAgent.ClothingQuestionLayout` | react_agent_fixed.py:72-180 | a weather-and-wear question with readable results yields the steps search then clothing, and the sections results then advice |
| `App.UpdateExampleInfo` | app.py:599-613 | the default prompt for an empty or unknown key; otherwise the description line, followed by more text iff there are tags |
| `App.DefaultInfoIffUnknown` | app.py:599-613 | the default prompt appears iff the key is empty or unknown |
| `App.InfoShowsEveryTag` | app.py:608-611 | every tag of a known example appears in its own span |
| `Seqs.KeepSplits` | app.py:628-632 | the found and the missing paths together are the input paths, each as often as it occurs |
| `App.LoadExample` | app.py:615-643 | unknown key: nothing loaded; otherwise the paths split in order into found and missing, and the status is missing first, then loaded, with the error iff the example lists no path |
| `App.ValidateQuestion` | app.py:689-692 | passes iff the question is non-blank and there are uploads; a blank question is reported before missing uploads |
| `App.NeedsReprocess` | app.py:701 | the retriever is reused exactly when one exists and the digest set is unchanged; a fresh session always indexes |
| `App.RefreshIndex` | app.py:701-732 | unchanged uploads with a retriever keep the session; otherwise the session is updated iff the chunks are non-empty and the build succeeds, to the new digests, retriever and names; a raising processor, empty chunks and a failed build each give their own error; history is never touched |
| `App.RefreshSettles` | app.py:701-732 | after a successful refresh the same uploads need no re-indexing |
| `App.AnswerPreview` | app.py:750 | a short answer is kept; a longer one becomes exactly its first 200 characters followed by `...` |
| `App.PreviewIdempotent` | app.py:750 | a preview is its own preview |
| `App.LastFive` | app.py:761 | the last `min(5, n)` entries, in order |
| `App.WindowSlides` | app.py:753-761 | recording an entry slides the full window by one |
| `App.HistoryDisplay` | app.py:756-765 | the placeholder iff there is no history; otherwise exactly the last `min(5, n)` entries, in order, separated by blank lines |
| `App.OlderHistoryHidden` | app.py:756-762 | entries older than the newest five never change the pane |
| `App.NewestEntryShown` | app.py:753-765 | once an entry is recorded the pane shows it and never the placeholder |
| `App.FileHashes` | app.py:935-941 | succeeds iff every upload can be opened, with the set of the uploads' digests; otherwise fails at the first upload that cannot |
| `App.HashesIgnoreOrder` | app.py:935-941 | the digest set does not depend on upload order |
| `App.HashesIgnoreDuplicates` | app.py:935-941 | uploading a file twice adds no digest |
| `App.ReorderedUploadReused` | app.py:697-701 | re-uploading the indexed files in another order does not re-index |

## Left out

- Gradio layout, CSS, JavaScript, event wiring, `update_file_status`, the export functions and `demo.launch`: interface code with no decision logic. `update_file_status` also uses floating point.
- The internals of the parsers and converters are oracles. This covers the Markdown header and recursive character splitters, pypdfium2 and docling. The splitters are assumed not to raise.
- The 60-second SIGALRM of the timed docling strategy: a real-time signal. A timeout is one more way that strategy raises.
- Pickle and the file system: the cache is a map from digest to (modification time, optional record). How a write ends (open fails, dump fails, or it completes) is an oracle answer. A truncated pickle is taken never to load.
- `FileHandler.HandleFile`: the write oracle answers by digest and chunk list. A write that fails once and succeeds on a later attempt with the same bytes in the same batch cannot be expressed.
- `FileHandler.Run`: the clock is read once per batch. The same `now` decides every `_is_cache_valid` and stamps every written entry. The code reads `datetime.now()` on each validity check (file_handler.py:239), and the operating system sets each modification time when the file is written. So an entry cannot expire in the middle of a batch in the model, and a fresh entry has age exactly 0. `IdenticalBytesShareEntry`, `RunIdenticalPair`, `DuplicateUploadCollapses` and `RunPoisonedPair` rely on that.
- `FileHandler.IsCacheValid` takes the age as an integer number of seconds. Python compares `timedelta` values in microseconds, so sub-second ages are not modelled.
- SHA-256 is an uninterpreted function. Properties that need it to be collision-free say so in their `requires`.
- BM25 scoring, Chroma and Ollama embeddings, and the rank fusion of `EnsembleRetriever`: external code that the repository never shows. Only whether construction succeeds is modelled. The Chroma store persisting across builds in `CHROMA_DB_PATH` is not modelled.
- The chat model, the Tavily search, `json.dumps`/`json.loads` and the answering workflow called by `process_question` (app.py:739-742): oracles or left out.
- `ReactAgent.RecommendClothing` lower-cases ASCII letters only; the argument above shows that this gives the same answers as Python's full lowering for every keyword.
- `ReactAgent.Invoke` models LangGraph's recursion limit as a count of agent runs, with `None` for the recursion error. LangGraph's own step accounting is not modelled.
- `App.FileHashes`: whether `open(file.name, "rb")` succeeds is an oracle answer per upload, and the raised error is the position of the first upload it fails on. `process_question` calls it at app.py:697, inside its outer `try`, which catches the error and shows its message. That message is not modelled, and neither is a read that fails part-way.
- Timestamps of history entries: they come from the clock and are treated as given strings.
- Where `process_question` returns too few values (app.py:721) and where `load_example` returns more values than its wiring expects: both concern the interface's output wiring, so they are not modelled.

## Findings

| source | as written | input that shows it | evidently intended | confidence | as-written member | corrected member |
|---|---|---|---|---|---|---|
| react_agent_fixed.py:75-99 | `call_model` tests the last message of any kind for the trigger words. After a search, that message is the tool message holding the results' JSON, and the results of a news or weather search usually contain "today", "news" or "current". Unless the question holds both "weather" and "wear", every step searches again and `should_continue` always says "continue", so the graph only stops at the recursion limit. | the question "Latest AI developments", with a search returning `[{"title": "AI today"}]` | look for trigger words only in the user's turn, and let the model answer once tool results are present | not executed | `ReactAgent.SampleQuestionLoops` | `ReactAgent.QuestionAnsweredInTwoSteps` |
