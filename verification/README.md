# LegalMind backend core, modelled in Dafny

LegalMind is a legal-document assistant. A user uploads contracts as PDF, Word or image files into a chat session. The backend:

- splits each document into chunks and stores them in a vector database;
- answers questions through an agent that streams its reply, calling four tools:
  - document search (`rag_search_tool`);
  - web-backed regulatory compliance (`compliance_check_tool`);
  - clause comparison (`clause_comparison_tool`);
  - citation validation (`citation_validation_tool`).

This project models the backend's own decision logic around those library calls, in ten modules:

| module | file | what it models |
|---|---|---|
| `Wrappers` | `wrappers.dfy` | `Option` and `Result` |
| `Text` | `text.dfy` | the Python `str` operations the code relies on, over ASCII: `isspace`, `strip`, `lower`, `capitalize`, `split()`, `join`, `find`/`rfind`, `replace`, `str(int)`, and `os.path.splitext` on POSIX paths |
| `ChatStream` | `chat_stream.dfy` | `async_stream_generator` (`backend/routers/chat.py`): which agent events are streamed, the "Analyzing document" marker, the accumulated answer, the conditional history save, the error line and the context-variable reset |
| `SessionTitle` | `session_title.dfy` | `auto_generate_title` (`backend/routers/sessions.py`): file-name titles, greeting detection, the five-word cut, the 50-character cap and `capitalize()` |
| `Retrieval` | `retrieval.dfy` | first-occurrence de-duplication of retrieved chunk texts, shared by both tool sets |
| `Tools` | `tools.dfy` | the four tools of `backend/src/tools.py` |
| `ContextLayout` | `context_layout.dfy` | the exact layout of the document context the search tool returns |
| `LegacyTools` | `legacy_tools.dfy` | the legacy variants in `backend/engine/tools.py` where they differ |
| `Ingestion` | `ingestion.dfy` | `refine_chunks` and `process_document` (`backend/src/document_processor.py`): extension dispatch, extraction, metadata cleaning, blank-chunk removal, the count returned and the removal of the uploaded file |
| `Documents` | `documents.dfy` | `upload_docs` and `delete_file` (`backend/routers/documents.py`), with `delete_from_vector_store` (`backend/src/vector_store.py`) |

Opaque collaborators are function-typed parameters:

- the LLM, the retriever, the web search and the embedding similarity;
- the document loader and both text splitters;
- the vector store's write.

Each tool returns the calls it made alongside its text. That makes "the LLM was never invoked" a statement about that list.

The stores are abstract values:

- the file system is a set of paths;
- the vector store is a sequence of chunks;
- the session file records are a map from file id to record.

Fresh `uuid4` ids are given as a parameter.

## Model

| member | source | states |
|---|---|---|
| Text.Capitalize | backend/routers/sessions.py:62 | `capitalize()` keeps the length, upper-cases the first character and lower-cases every other one |
| Text.StripEmptyIffBlank | backend/routers/chat.py:65 | `s.strip()` is empty exactly when every character of `s` is whitespace |
| Text.SplitYieldsWords | backend/routers/sessions.py:57 | every token `split()` yields is non-empty and free of whitespace |
| Text.SplitCountPattern | backend/routers/sessions.py:53 | two texts whose whitespace sits at the same places split into the same number of words |
| Text.LowerKeepsWordCount | backend/routers/sessions.py:48-53 | lower-casing a text does not change how many words `split()` finds in it |
| Text.SplitJoinRoundTrip | backend/routers/sessions.py:61 | splitting space-joined words gives back exactly those words, so `" ".join` and `split()` are inverse on word lists |
| Text.RemoveChar | backend/routers/sessions.py:53 | `replace('!', '')` leaves no `!`, never lengthens the text, and returns a text without `!` unchanged |
| Text.RemoveCharMembers | backend/routers/sessions.py:53 | every character other than `!` is in the result exactly when it is in the input |
| Text.RemoveCharAppend | backend/routers/sessions.py:53 | removal distributes over concatenation, so the surviving characters keep their order |
| Text.RemoveCharLength | backend/routers/sessions.py:53 | the result is shorter than the input by exactly the number of `!` characters in it |
| Text.JoinLayout | backend/src/tools.py:50 | in `sep.join(ws)` piece `k` starts after every earlier piece and its separator, and every piece but the last is followed directly by `sep` |
| Text.JoinLength | backend/src/tools.py:50 | a non-empty join is as long as its pieces plus one separator between each pair of neighbours |
| Text.SplitExt | backend/routers/documents.py:37 | `os.path.splitext` returns a root and an extension that concatenate to the path; the extension is empty or a single dot followed by no dot and no separator |
| Text.SplitExtAfterPlainName | backend/routers/documents.py:37-39 | a dot-free name in a directory followed by an extension splits back into exactly that name and that extension |
| Text.PlainNamesDiffer | backend/routers/documents.py:36-38 | two different dot-free names stay different once each gets an extension |
| Text.ParseNatToString | backend/src/tools.py:48 | the decimal numeral of `i+1` reads back as the same number |
| ChatStream.StreamTurn | backend/routers/chat.py:15-74 | the generator's outcome is the reference turn: emissions of the consumed events, the error line on an exception, nothing more after a client disconnect, history written only for a non-blank answer, and the context variable restored after the `try` is entered |
| ChatStream.ConsumeEvents | backend/routers/chat.py:28-61 | the loop streams the emissions of the events before the first exception or disconnect and accumulates exactly their visible contents; it stops with that exception's message, or reports the disconnect |
| ChatStream.HandleEvent | backend/routers/chat.py:40-61 | one event that is neither an exception nor a disconnect adds its emissions (a visible token or a marker for an announced tool) and adds its content to the answer only when visible |
| ChatStream.FirstStop | backend/routers/chat.py:28-61 | the index where the stream stops: no exception or disconnect before it, and one at it unless it is the end |
| ChatStream.DisconnectSavesNothing | backend/routers/chat.py:57-74 | when the client goes away at a `yield`, the tokens already sent are those of the consumed events, no error line is sent, nothing is written to history (a clean end of the same events would have saved exactly a non-blank answer), the context is restored and the cancellation propagates |
| ChatStream.SilentEventChangesNothing | backend/routers/chat.py:44-57 | inserting a chunk tagged `internal_retrieval`, a chunk with tool-call fragments, a chunk authored by `rag_search_tool`, an empty chunk or an unannounced tool start anywhere in the stream leaves emissions, history writes and context unchanged |
| ChatStream.StreamedTokensAreVisibleContents | backend/routers/chat.py:52-57 | the streamed tokens are exactly the visible chunk contents in arrival order, and the accumulated answer is their concatenation (markers are never part of it) |
| ChatStream.OneMarkerPerAnnouncedTool | backend/routers/chat.py:59-61 | the number of "Analyzing document" markers equals the number of starts of `rag_search_tool` or `compliance_check_tool` |
| ChatStream.ExceptionEndsTurnWithOneErrorLine | backend/routers/chat.py:69-74 | after an exception exactly one `[System Error]` line is emitted, it is last, nothing is written to history and the context is restored |
| ChatStream.SavedOnlyWhenAnswerNonBlank | backend/routers/chat.py:65-67 | without an exception or a disconnect, history receives the user query then the answer exactly when the streamed tokens are not all whitespace, and the saved answer is their concatenation |
| ChatStream.DirectAnswerStreamsEverything | backend/routers/chat.py:52-57 | a turn of plain model tokens streams each of them at once, in order, with no marker and nothing held back |
| SessionTitle.DropLastSuffix | backend/routers/sessions.py:40-41 | a name without a dot is unchanged; otherwise the result is the prefix before the last dot, so no dot follows it |
| SessionTitle.Cap | backend/routers/sessions.py:62 | `[:50]` gives a prefix of at most 50 characters, and the whole text when it is that short |
| SessionTitle.AutoGenerateTitle | backend/routers/sessions.py:33-66 | the returned title is the automatic title; for a session the store holds, it is also the stored one; no session is added or removed and no other session's title changes; if `update_session_title_db` raises, the route fails with its message and no title changes |
| SessionTitle.FileTitleIgnoresQuery | backend/routers/sessions.py:33-43 | with files, the title does not depend on the query and is the icon followed by the first name minus its last suffix, neither capped nor re-cased |
| SessionTitle.CapitalizeIdempotent | backend/routers/sessions.py:62 | capitalising twice equals capitalising once |
| SessionTitle.QueryTitleShape | backend/routers/sessions.py:62 | a query title has at most 50 characters, an upper-cased first character and lower-cased remaining characters |
| SessionTitle.GeneralTitleIffGreeting | backend/routers/sessions.py:50-54 | without files the title is "General Discussion" exactly when the query is a greeting |
| SessionTitle.LongQueryKeepsFirstFiveWords | backend/routers/sessions.py:47-62 | a query of more than five words gives a text that ends in "..." and whose words before it are the query's first five; the title `auto_generate_title` stores for a file-less session is that text cut to 50 characters, equal to it up to letter case |
| SessionTitle.LongQueryIsNotGreeting | backend/routers/sessions.py:50-53 | a query of more than five words is never taken for a greeting, so it always reaches the word-based title |
| SessionTitle.GreetingWordCount | backend/routers/sessions.py:50 | every listed greeting has at most two words |
| SessionTitle.LongQueryWordAt | backend/routers/sessions.py:57-61 | in a long query's title text, word `k` of the first five starts right after the earlier words, each followed by one character |
| SessionTitle.LongQuerySpaceAt | backend/routers/sessions.py:57-61 | each of the first four words is followed by exactly one space, not a tab or a run of spaces |
| SessionTitle.LongQueryLength | backend/routers/sessions.py:57-61 | the title text is as long as the five words, four single spaces and "...", so nothing else is in it |
| SessionTitle.ShortQueryKeptWhole | backend/routers/sessions.py:57-62 | a non-greeting query of at most five words keeps its stripped text, cut to 50 characters, equal to it up to letter case |
| Retrieval.Dedup | backend/src/tools.py:29-35 | the kept texts are exactly the distinct retrieved texts, with no repeats |
| Retrieval.DedupKeepsFirstOccurrenceOrder | backend/src/tools.py:30-35 | the kept texts appear in the order of their first occurrence |
| Retrieval.DedupIdempotent | backend/src/tools.py:30-35 | a list without repeats is kept as it is |
| Retrieval.DedupScan | backend/src/tools.py:30-35 | the `seen`-set loop computes the reference de-duplication |
| Tools.FormatContext | backend/src/tools.py:37-58 | no texts give the "No relevant information" notice; otherwise the output starts with "DOCUMENT CONTEXT:" and ends with a blank line and the strict instruction, so it is never the notice |
| ContextLayout.FormatContextBlockAt | backend/src/tools.py:46-52 | block `k` ("Chunk k+1:", a newline and the k-th kept text) starts right after the header and every earlier block with its blank-line separator |
| ContextLayout.FormatContextSeparator | backend/src/tools.py:50 | a blank line follows every block but the last |
| ContextLayout.FormatContextLength | backend/src/tools.py:46-58 | the context is exactly as long as the header, the blocks with one blank line between neighbours, and the tail, so nothing else is in it |
| Tools.RagSearch | backend/src/tools.py:12-58 | the tool asks the LLM for query variants through the multi-query retriever, then retrieves once; it never calls the web search, and returns the notice exactly when nothing distinct was found |
| Tools.RagSearchQuotesEveryChunk | backend/src/tools.py:46-52 | every distinct retrieved text appears verbatim under the label "Chunk k:" for its 1-based position |
| Tools.ChunkLabelsDistinct | backend/src/tools.py:47-48 | different positions give different chunk labels |
| Tools.ComplianceCheck | backend/src/tools.py:61-79 | without a key the fixed text is returned and nothing is called; with one the search runs once on the prefixed query, the model is asked once with the search text and the query, and its answer is returned |
| Tools.ComplianceSearchFailureReachesLlm | backend/src/tools.py:69-78 | a failed search still reaches the model, with "Search failed: <e>" and the query in the prompt |
| Tools.SplitAtFirstPipe | backend/src/tools.py:91 | the two halves rebuild the query around a `|`, and the first has no `|` |
| Tools.SplitAtFirstPipeUnique | backend/src/tools.py:91 | the split is the only one with a pipe-free first half, so the second clause keeps any further pipes |
| Tools.ClauseComparison | backend/src/tools.py:81-103 | input without `|` gives exactly the fixed error with no call; otherwise similarity is scored on the stripped halves and the model gets a prompt quoting the unstripped halves |
| Tools.CitationValidation | backend/src/tools.py:105-133 | without a key the fixed text is returned and nothing is called; with one the search runs once and the model is asked once with the search text and the citation |
| Tools.CitationSearchFailureReachesLlm | backend/src/tools.py:113-132 | a failed citation search still reaches the model, with "Search failed: <e>" and the citation in the prompt |
| Tools.MissingKeyCallsNothing | backend/src/tools.py:68-119 | without a key neither the compliance nor the citation tool calls the search or the model |
| LegacyTools.LegacyRagSearch | backend/engine/tools.py:10-32 | the legacy search retrieves once, never calls the model, returns its notice when nothing was found and a single distinct text unchanged |
| LegacyTools.DedupFirstIsFirst | backend/engine/tools.py:22-27 | the first retrieved text is always kept, first |
| LegacyTools.LegacyRagSearchQuotesEveryChunk | backend/engine/tools.py:32 | every distinct retrieved text appears verbatim in the output |
| LegacyTools.LegacyRagSearchTextAt | backend/engine/tools.py:21-32 | the k-th distinct text starts after every earlier distinct text and its blank-line separator |
| LegacyTools.LegacyRagSearchSeparatorAt | backend/engine/tools.py:32 | a blank line follows every distinct text but the last |
| LegacyTools.LegacyRagSearchLength | backend/engine/tools.py:32 | the answer is as long as the distinct texts plus one blank line between neighbours, so nothing else is added |
| LegacyTools.LegacySentinelIsAmbiguous | backend/engine/tools.py:29-32 | a search that found one chunk whose text is the notice gives the same output as a search that found nothing |
| LegacyTools.LegacyCitationValidation | backend/engine/tools.py:78-96 | without a key the fixed text with no call; with one a single search and a single model call, whose prompt carries the search text or "Search unavailable." |
| LegacyTools.LegacyCitationHidesSearchError | backend/engine/tools.py:89-94 | any two search failures give the same run, and the prompt says "Search unavailable." |
| Ingestion.KindOf | backend/src/document_processor.py:30-52 | the image path is taken exactly for lower-cased extensions `.png`, `.jpg`, `.jpeg`; the structural path exactly for `.pdf`, `.docx`, `.doc` |
| Ingestion.WithMetadata | backend/src/document_processor.py:23 | one chunk per split text, in order, each carrying the given metadata |
| Ingestion.RefineAppend | backend/src/document_processor.py:20-25 | refining a concatenation is the concatenation of the refinements, so document order is kept |
| Ingestion.RefineCarriesParentMetadata | backend/src/document_processor.py:13-25 | the pieces of document `i` lie between those of earlier and later documents and carry document `i`'s metadata |
| Ingestion.FilterMetadata | backend/src/document_processor.py:69 | a key stays exactly when its value is a string, number or boolean, and keeps that value; `None`, list and dict values are removed |
| Ingestion.FilterMetadataKeepsSimple | backend/src/document_processor.py:69 | metadata that is already simple is unchanged |
| Ingestion.FilterComplexMetadata | backend/src/document_processor.py:69 | the documents keep their number, order and text, and each one's metadata is its own metadata filtered, so only simple values are left |
| Ingestion.DropBlankMembers | backend/src/document_processor.py:70 | a chunk survives exactly when it was present and its text is not whitespace only |
| Ingestion.DropBlankAppend | backend/src/document_processor.py:70 | the filter distributes over concatenation, so survivors keep their order |
| Ingestion.DropBlankCount | backend/src/document_processor.py:70 | the survivors number the input less its blank chunks |
| Ingestion.Clean | backend/src/document_processor.py:68-72 | every chunk kept is non-blank with simple metadata, and there are no more of them than were extracted |
| Ingestion.Extract | backend/src/document_processor.py:30-65 | an unsupported extension extracts nothing; the image or structural path fails exactly when its transcription or loader raises |
| Ingestion.ProcessDocument | backend/src/document_processor.py:27-86 | the file is removed on every exit path unless DEBUG_MODE is "true" in any case; the count returned is the number of chunks appended; existing chunks stay; everything written is non-blank with simple metadata; an exception writes nothing; an unsupported extension returns 0 |
| Ingestion.DispatchIgnoresCase | backend/src/document_processor.py:30-52 | `contract.PDF` takes the structural path and `scan.JPeG` the image path |
| Ingestion.DispatchUsesFinalExtension | backend/src/document_processor.py:30 | `notes.pdf.txt` is unsupported: only the last extension counts |
| Ingestion.BlankTranscriptWritesNothing | backend/src/document_processor.py:45-49 | a transcript that is not a non-blank string returns 0, writes nothing and never reaches the vector store |
| Ingestion.UnsupportedConsultsNothing | backend/src/document_processor.py:33-78 | an unsupported extension gives the same result whatever the collaborators do, and writes nothing |
| Ingestion.AllBlankWritesNothing | backend/src/document_processor.py:68-78 | when every extracted chunk is blank, 0 is returned and nothing is written |
| Ingestion.WrittenAreTheNonBlankChunks | backend/src/document_processor.py:68-76 | a success writes exactly the cleaned non-blank chunks in extraction order and returns their number |
| Ingestion.ExceptionReraisedUnchanged | backend/src/document_processor.py:72-82 | processing fails exactly when extraction raises or the write of a non-empty batch raises; the message of whichever raised, the transcription, the loader or `add_documents`, is re-raised unchanged |
| Ingestion.ImageWritesBareChunks | backend/src/document_processor.py:45-47 | every chunk the image path writes has empty metadata |
| Documents.PathJoin | backend/routers/documents.py:39 | joining a non-empty directory without a trailing separator and a relative name puts one `/` between them |
| Documents.StoredPathKeepsExtension | backend/routers/documents.py:36-39 | the saved path is `secure_uploads/<id><ext>` and keeps the upload's extension, so processing dispatches on it as on the original name |
| Documents.StoredPathsDiffer | backend/routers/documents.py:36-39 | distinct ids give distinct saved paths, whatever the file names |
| Documents.UploadOneEffects | backend/routers/documents.py:41-59 | one iteration reports on its own file; it registers the file exactly when the count is positive; an exception leaves the records alone and the saved file removed; a file with chunks is registered only if `add_file_to_session_db` does not raise |
| Documents.LoopAppend | backend/routers/documents.py:35 | the loop over a concatenation runs over the first part, then over the second from where the first left off |
| Documents.EntryIsOneIteration | backend/routers/documents.py:35-59 | every file is attempted whatever happened before: entry `i` is one iteration on the state left by the first `i` files |
| Documents.EntriesFollowFiles | backend/routers/documents.py:34-61 | one response entry per file, in input order, and each success carries the id drawn for its file |
| Documents.RecordIffChunks | backend/routers/documents.py:45-48 | with fresh distinct ids, file `i` gets a record exactly when it was processed with more than 0 chunks, naming the session and the original file name; other records are untouched |
| Documents.UploadAsWrittenAlwaysFails | backend/routers/documents.py:45 | as written, every upload reports the TypeError, no record is added, no chunk is written and no file is left behind |
| Documents.UploadCorrectedIndexesFile | backend/routers/documents.py:45-53 | with the one-argument call, a supported file with non-blank content, a working store and a record write that does not raise is reported with its chunk count and registered, and its saved file is removed unless DEBUG_MODE keeps it |
| Documents.UploadRecordFailureOrphansChunks | backend/routers/documents.py:45-59 | if `add_file_to_session_db` raises after processing wrote the chunks, the file is reported as an error with that message and its saved copy is removed, but its chunks stay in the vector store with no record naming the file |
| Documents.DeleteFromVectorStore | backend/src/vector_store.py:29-39 | opening the store happens outside the `try`, so its exception escapes with its message; otherwise the delete removes every copy of each chunk tagged with the id, keeps every other chunk with all its copies, and reports true; or, if the delete raises, removes nothing and reports false |
| Documents.RemoveTaggedKeepsOthers | backend/src/vector_store.py:35 | the chunks that remain are exactly those not tagged with the id |
| Documents.RemoveTaggedCounts | backend/src/vector_store.py:35 | counted with multiplicity, every copy of a tagged chunk goes and every other chunk keeps all its copies |
| Documents.RemoveTaggedAppend | backend/src/vector_store.py:35 | the delete distributes over concatenation, so the remaining chunks keep their order |
| Documents.RemoveUntaggedIsIdentity | backend/src/vector_store.py:35 | without a chunk tagged with the id, the delete leaves the store as it was |
| Documents.DeleteFile | backend/routers/documents.py:21-25 | if opening the vector store raises, the route fails with that error and changes nothing; otherwise the vector delete happens and the disk is left alone, and then either `delete_file_db` raises, so the route fails with its message and the record stays, or the record is removed and the route reports "deleted" |
| Documents.RecordDeleteFailureKeepsRecord | backend/routers/documents.py:23-24 | when `delete_file_db` raises after a working vector delete, the route fails, every chunk tagged with the id is gone and every other chunk stays, and the record stays, naming a file with nothing left to retrieve |
| Documents.DeleteIgnoresSessionAndVectorOutcome | backend/routers/documents.py:21-25 | the route's session id plays no part, and the record delete and status do not depend on whether the vector delete itself raised |
| Documents.RecordRemovedUnlessARaiseEscapes | backend/routers/documents.py:23-24 | an existing file record is gone after the route exactly when neither opening the vector store nor `delete_file_db` raised, which is exactly when the route reports success |
| Documents.ImageChunksSurviveDelete | backend/src/vector_store.py:31-35 | chunks written for an image carry no `source_id`, so no delete by file id removes them, whether it succeeds, is swallowed or escapes |

## Left out

- Character set: whitespace and case mapping cover ASCII only. Python also treats non-ASCII whitespace and letters; they are left unchanged here.
- Agent internals: the LLM, MMR ranking, the splitters' chunk sizes and the loader are opaque functions. The agent's iteration cap is enforced by the library and not modelled.
- Query expansion: `MultiQueryRetriever.from_llm` (`backend/src/tools.py:22-27`) asks the LLM for query variants with a prompt that belongs to the library. The model records that call as `ExpandQuery(query)` and does not model its prompt, the variants or how their results are merged.
- Cosine similarity: it is numpy floating-point arithmetic, so the score is an opaque rendered string.
- Tools.ComplianceCheck: an exception raised by the LLM call itself is not modelled; the tool's result is the model's answer.
- Tools.CitationValidation: likewise, an exception from the LLM call is not modelled.
- Tools.ClauseComparison: the similarity call (`backend/src/tools.py:92`) and the LLM call (`:102`) can raise. Neither is modelled. If the similarity raises, the LLM is never called.
- Tools.RagSearch: an exception from the retriever (`backend/src/tools.py:27`) is not modelled. It would propagate out of the tool.
- LegacyTools.LegacyRagSearch: likewise, an exception from `retriever.invoke` (`backend/engine/tools.py:19`) is not modelled.
- LegacyTools.LegacyCitationValidation: an exception from `llm.invoke` (`backend/engine/tools.py:95`) is not modelled. Only the search is inside the `try`.
- History writes: loading or writing chat history cannot fail in the model, apart from the load failure given to `StreamTurn`. A failing write would surface as the `[System Error]` line. If `add_ai_message` (`backend/routers/chat.py:67`) fails after `add_user_message` (`:66`) succeeded, the user message stays saved alone; the model does not represent that half-written state. A client disconnect during those two awaits is not modelled either: the model's disconnects happen only at the yields of the event loop (`:57`, `:61`).
- Metadata numbers: Python's `int` and `float` values are both `Num` with an integer payload. `filter_complex_metadata` keeps either kind, so only the kind matters here.
- Logging, `log_audit` and the debug `print`s: they are output only.
- File contents: writing the upload to disk is assumed to succeed. `os.remove` and `os.path.exists` are exact set operations on the path set.
- `add_documents`: the write is all-or-nothing. A partial write before an exception is not modelled.
- Missing input file: a collaborator failure covers the case where the processor is handed a missing file.
- `uuid4`: randomness is replaced by the `ids` parameter. Uniqueness and the dot-free shape are preconditions where a lemma needs them.
- Session file records: `backend/database.py` does not define `add_file_to_session_db`, `get_session_files_db`, `delete_file_db` or `update_session_title_db`, so as shipped the imports at `backend/routers/documents.py:9` and `backend/routers/sessions.py:6-9` raise ImportError and neither router loads. The model assumes those helpers exist and models the record store abstractly as a map. `get_session_files_db` order is the order of the `filenames` argument to `SessionTitle.AutoTitle`.
- Record-write failures: the world says, per file id and with the message, whether `add_file_to_session_db` (`backend/routers/documents.py:48`, `recordFaults`) or `delete_file_db` (`:24`, `deleteFaults`) raises. For `update_session_title_db` (`backend/routers/sessions.py:65`), the handler is given the message as `writeFault`. Why these writes raise is not modelled.
- Other routes: `list_files` and the other session handlers are store passthroughs.
- Authentication: `get_current_user`, JWT and bcrypt are not modelled.
- Session-filtered retrieval: the retriever at `backend/src/tools.py:18-25` is built without a session filter, and no tool reads `session_context`. The chat stream sets and resets that variable (`backend/routers/chat.py:16`, `:74`), and the model tracks only its value.
- `source_id` tagging: nothing in the ingestion path writes a `source_id`, so `Documents.ImageChunksSurviveDelete` states the consequence for images. For loader-produced metadata the model keeps whatever keys the loader returns.
- Preamble buffering: none. `backend/routers/chat.py:55-57` yields every visible token as it arrives, and `ChatStream.DirectAnswerStreamsEverything` states it.
- Text.RemoveChar: its own contract does not fix the order of the surviving characters. `Text.RemoveCharMembers`, `Text.RemoveCharAppend` and `Text.RemoveCharLength` state that part.
- Tools.FormatContext: its own contract gives only the header, the tail and the notice. The blocks' order and separators are stated by `ContextLayout.FormatContextBlockAt`, `ContextLayout.FormatContextSeparator` and `ContextLayout.FormatContextLength`.
- LegacyTools.LegacyRagSearch: its own contract does not give the layout of two or more texts. `LegacyTools.LegacyRagSearchTextAt`, `LegacyTools.LegacyRagSearchSeparatorAt` and `LegacyTools.LegacyRagSearchLength` state it.
- Legacy compliance and clause tools: `backend/engine/tools.py:34-76` is textually the same as the current tools, so `Tools.ComplianceCheck` and `Tools.ClauseComparison` model both.

## Findings

| source | as written | input that shows it | evidently intended | confidence | as-written member | corrected member |
|---|---|---|---|---|---|---|
| backend/routers/documents.py:45 | `process_document(path, file_uuid)` passes two arguments to a function defined with one parameter (`backend/src/document_processor.py:27`), so every call raises a TypeError that the `except` turns into an "Error" entry. This assumes the module imports at all: `add_file_to_session_db`, `get_session_files_db`, `delete_file_db` and `update_session_title_db` are not defined in `backend/database.py`, so as shipped the imports at `backend/routers/documents.py:9` and `backend/routers/sessions.py:6-9` would raise ImportError first; the model and this row take those helpers as present | any upload, e.g. one file `contract.pdf` with id `a1` | `process_document(path)`, indexing the file and registering it when chunks were written | high (not executed) | Documents.UploadAsWrittenAlwaysFails | Documents.UploadCorrectedIndexesFile |
