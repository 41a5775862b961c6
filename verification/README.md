# makima-tools core, modelled in Dafny

This project models the parts of the makima-tools command-line scripts that hold
logic rather than glue:

- the vector-memory front end (`cli/python/memory_store.py`): the payload of a stored
  memory, the projection of search hits, the greedy line chunker with chunked document
  ingestion, and session-log ingestion;
- the incremental tracker (`cli/python/memory_sync.py`): the saved state, the per-log
  byte offsets, the per-document modification-time fingerprints, and the order of the
  two phases of one pass;
- the task list (`cli/python/tasks.py`), the bookmark list (`cli/python/links.py`) and
  the readable-text extractor (`cli/python/fetch.py`).

Calls to the embedding service and the vector store are modelled as their inputs.
Ingestion and sync produce the list of `StoreRequest`s (text, type, source, metadata)
that `store_memory` would receive, in call order. `StoreMemory` shows the point the
store would get for one request. The generated uuid and the clock reading are
parameters. The file system is replaced by snapshots:

- a session log is its name, its size in bytes and the parsed lines that reading it
  yields;
- a memory document is its name, `str(st_mtime)` and its text;
- a JSON file of tasks or links is the list it holds;
- an HTML page is the list of events the HTML parser reports.

Modules, one per file: `Wrappers` (Option/Result), `Strings` (Python's `strip`,
`split`, `join`, `[:n]` and `in`), `Seqs` (filter and flat-map), `Chunker`,
`MemoryStore`, `MemorySync`, `Tasks`, `Links`, `Fetch`.

The chunker is the centre of the model. The source keeps a string accumulator. The
model keeps the GROUP of lines that accumulator was built from, so a run of the
chunker is a segmentation of the input lines. `Chunker.IsGreedySegmentation` describes
that segmentation without reference to the loop: each group grew while lines fit, and
was flushed exactly when the next line did not. The chunker's output is proved to
meet this description, and it is proved to be the only segmentation that does.

Two behaviours of the code are worth knowing:

- A log that shrinks below its stored offset keeps that offset: the code skips a log
  whose size is not above its offset and leaves the offset alone. So the stored offset
  can exceed the file's current size (`MemorySync.ShrunkLogKeepsOffset`).
- The two session readers keep different conversation texts. Both drop texts of 50
  characters or fewer; the sync pass also drops texts of 5000 characters or more,
  while one-off session ingestion has no upper bound (`MemoryStore.Window`).

## Model

| member | source | states |
|---|---|---|
| Chunker.GroupsAreGreedy | cli/python/memory_store.py:108-120 | the chunker's groups are a greedy segmentation of the lines: in order, with nothing lost; a group grows while the accumulator plus the next line fits the limit; it is flushed exactly when the next line would overflow |
| Chunker.GreedySegmentationIsUnique | cli/python/memory_store.py:111-117 | any segmentation meeting the greedy description is the chunker's own, so the description determines the chunks |
| Chunker.GroupsCoverLines | cli/python/memory_store.py:111-120 | the groups, concatenated, are exactly the input lines; their accumulator texts concatenate to every line followed by a line feed |
| Chunker.EmitOrigin | cli/python/memory_store.py:113-120 | every chunk is the stripped text of one accumulator |
| Chunker.ChunksShape | cli/python/memory_store.py:111-120 | every chunk is non-empty and has no surrounding whitespace; a chunk over the size limit is a single stripped input line |
| Chunker.MultiLineGroupsFit | cli/python/memory_store.py:112-117 | an accumulator of two or more lines strips to at most the chunk size, so only a lone long line can exceed the limit |
| Chunker.LongChunkIsOneLine | cli/python/memory_store.py:112-115 | a flushed text longer than the limit is the stripped form of one input line |
| Chunker.ChunkText | cli/python/memory_store.py:108-120 | the loop over `content.split("\n")` with a string accumulator computes the chunks of the grouped model |
| MemoryStore.StoreMemory | cli/python/memory_store.py:34-68 | the point's id is the generated id; the payload has the five base keys plus the metadata keys; metadata overrides a base key; an unoverridden base key holds the text, type, source, timestamp or id |
| MemoryStore.ProjectHits | cli/python/memory_store.py:86-95 | one result per hit, in hit order, with the score and the text, type, source and timestamp of the payload, each `""` when missing |
| MemoryStore.StoredMemoryIsFound | cli/python/memory_store.py:34-95 | a memory stored without metadata overriding base keys comes back from a search with the text, type, source and timestamp it was stored with |
| MemoryStore.DocumentRequests | cli/python/memory_store.py:122-131 | each request is the document request of the chunk, longer than 50 characters, at the `chunk_index` it carries, with the file path; the carried indices rise strictly along the list, as `enumerate` yields them |
| MemoryStore.DocumentRequestsStoreLongChunks | cli/python/memory_store.py:122-131 | the stored texts are exactly the chunks longer than 50 characters, in chunk order; each is stored under its own index, the indices rise along the list, and every long chunk is stored |
| MemoryStore.DocumentRequestsComplete | cli/python/memory_store.py:123-131 | every chunk longer than 50 characters is stored, with its own index |
| MemoryStore.DocumentRequestsTexts | cli/python/memory_store.py:123-131 | the stored texts are exactly the chunks longer than 50 characters, in chunk order |
| MemoryStore.IngestFile | cli/python/memory_store.py:98-133 | a missing file fails with FileNotFound before anything is stored; for an existing file the stored texts are exactly the chunks of its content longer than 50 characters, in chunk order, each stored under the file's name with the path and its own index in the full chunk list, the indices rising along the requests, and every such chunk is stored |
| MemoryStore.IngestFileCount | cli/python/memory_store.py:122-133 | the returned count is the number of chunks longer than 50 characters |
| MemoryStore.ItemRequestsShape | cli/python/memory_store.py:158-171 | each stored content item is a conversation of this log with the record's role and timestamp, longer than 50 and at most 2000 characters |
| MemoryStore.ItemRequestsAreQualifyingItems | cli/python/memory_store.py:158-171 | exactly the text items whose text length is in the window are stored, in order, each cut to its first 2000 characters |
| MemoryStore.LineRequests | cli/python/memory_store.py:149-171 | a line that is not JSON, or a record whose type is not "message", stores nothing; a message record stores one conversation text per qualifying content item, in order, with the record's role and timestamp; a missing message or content stores nothing, and a missing role or timestamp reads as "" |
| MemoryStore.ItemRequestsHave | cli/python/memory_store.py:158-171 | every text item of a message longer than 50 characters is stored |
| MemoryStore.MalformedLineIsSkipped | cli/python/memory_store.py:148-173 | a line `json.loads` rejects, anywhere in a log, is skipped without changing what the other lines store |
| MemoryStore.LogRequestsShape | cli/python/memory_store.py:147-173 | every request for one log is a conversation text of that log, longer than 50 and at most 2000 characters |
| MemoryStore.SessionRequestsShape | cli/python/memory_store.py:143-171 | every request of session ingestion is a conversation text of a listed log whose name lacks ".deleted." |
| MemoryStore.SessionRequestsComplete | cli/python/memory_store.py:143-171 | every text item longer than 50 characters of a message record in a listed log not marked deleted is stored, cut to 2000 characters, under the log's name with the record's role and timestamp |
| MemoryStore.SessionRequestsOrigin | cli/python/memory_store.py:143-171 | every request of session ingestion is the text, cut to 2000 characters, of a text item longer than 50 characters of a message record in a listed log not marked deleted, under the log's name with the record's role and timestamp |
| MemoryStore.SessionRequestsOfLiveLogs | cli/python/memory_store.py:143-173 | session ingestion stores the requests of exactly the listed logs not marked deleted, log after log in listing order, each once |
| MemoryStore.IngestSessionLogs | cli/python/memory_store.py:136-175 | a missing directory fails with DirectoryNotFound; otherwise the requests are those of the logs not marked deleted, in listing order, each once; every request is the conversation text of a qualifying text item of a message record in such a log, longer than 50 and at most 2000 characters, and every such item is stored |
| MemorySync.SyncLogs | cli/python/memory_sync.py:37-85 | offsets never decrease and none is removed; logs missing from the listing keep their offsets; only listed logs not skipped by name are read |
| MemorySync.SyncLogsOffsets | cli/python/memory_sync.py:42-82 | a log not skipped by name that grew past its offset ends with its size as offset; every other listed log, one whose name holds ".deleted." or ".lock" included, keeps its offset, present or absent |
| MemorySync.SyncLogsReads | cli/python/memory_sync.py:42-82 | the logs read are exactly the listed logs not skipped by name whose size is above their stored offset, in listing order |
| MemorySync.SyncLogsNothingNew | cli/python/memory_sync.py:47-51 | when no log grew, nothing is read and the offsets are unchanged |
| MemorySync.SyncLogsIdempotent | cli/python/memory_sync.py:37-85 | a second log phase over logs of the same sizes reads nothing and keeps every offset |
| MemorySync.ShrunkLogKeepsOffset | cli/python/memory_sync.py:47-51 | a log smaller than its stored offset is skipped and keeps the larger offset |
| MemorySync.ReadRequestsShape | cli/python/memory_sync.py:53-80 | every request of the log phase is a conversation text of a log that was read |
| MemorySync.ChunkRequestsShape | cli/python/memory_sync.py:115-122 | each request for a document's chunks is a document text of that file, without metadata, longer than 50 characters |
| MemorySync.ChunkRequestsTexts | cli/python/memory_sync.py:115-122 | the stored texts are exactly the chunks longer than 50 characters, in order |
| MemorySync.SyncChunksAreIngestChunks | cli/python/memory_sync.py:101-122 | the document phase stores the same texts, in the same order, as `ingest_file` with its default chunk size of 500 |
| MemorySync.ChangedRequestsShape | cli/python/memory_sync.py:100-122 | every request of the document phase is a long chunk of a re-chunked document |
| MemorySync.SyncDocs | cli/python/memory_sync.py:88-127 | no fingerprint is removed; documents missing from the listing keep theirs; only listed documents are re-chunked |
| MemorySync.SyncDocsRechunks | cli/python/memory_sync.py:93-124 | the documents re-chunked are exactly the listed documents whose stored fingerprint differs from their modification time, a missing one included, in listing order |
| MemorySync.SyncDocsFingerprints | cli/python/memory_sync.py:93-124 | every listed document ends the pass with its current modification time as fingerprint |
| MemorySync.SyncDocsNothingNew | cli/python/memory_sync.py:97-98 | when every fingerprint is current, nothing is re-chunked and the fingerprints are unchanged |
| MemorySync.SyncDocsIdempotent | cli/python/memory_sync.py:88-127 | a second document phase over unmodified documents re-chunks nothing and keeps every fingerprint |
| MemorySync.SyncPass | cli/python/memory_sync.py:130-137 | the saved state has both maps and `last_sync` set to the clock reading; the two reported counts add up to the number of stores |
| MemorySync.SyncPassStoresNewContent | cli/python/memory_sync.py:37-134 | a pass stores the conversation texts of exactly the logs it should read, then the long chunks of exactly the stale documents; the counts are the numbers of each; no loaded offset decreases or disappears and no loaded fingerprint disappears |
| MemorySync.SyncPassOrder | cli/python/memory_sync.py:130-134 | the log phase's stores come first and are conversation texts of readable logs; the document phase's follow and are long chunks of listed documents |
| MemorySync.SyncPassIdempotent | cli/python/memory_sync.py:130-137 | a second pass on the saved state, with no log grown and no document modified, stores nothing and saves the same offsets and fingerprints |
| MemorySync.FirstPassRecordsEverything | cli/python/memory_sync.py:24-28 | with no state file, the first pass records the size of each non-empty listed log not skipped by name and each document's fingerprint; every other listed log, and every unlisted name, gets no key |
| Tasks.AddTask | cli/python/tasks.py:19-28 | the new task is appended, open, with id one past the old length; earlier tasks are unchanged |
| Tasks.AddAllNumbersFromOne | cli/python/tasks.py:21-27 | starting from no tasks, the adds number the tasks 1, 2, 3, … in order, each open with its own arguments |
| Tasks.CompleteTask | cli/python/tasks.py:39-47 | "not found" exactly when no task has the id; otherwise the first task with the id alone becomes done, and nothing else changes |
| Tasks.TaskLineShape | cli/python/tasks.py:35-37 | a listed line is exactly: two spaces, ✓ for a done task or ○ for an open one, a space, the id in brackets, a space, `!` exactly for a high-priority task, and the description; its length is the sum of those parts |
| Tasks.ListingFilter | cli/python/tasks.py:33-34 | listed tasks are open unless `--all` is given; every open task is listed; with `--all` every task is listed, in order |
| Tasks.ParseAdd | cli/python/tasks.py:57-60 | a trailing `high` sets the priority and is dropped from the description; any other last word, `normal` included, stays in the description of a normal task |
| Tasks.ParseAddHigh | cli/python/tasks.py:58-59 | words followed by `high` give a high-priority task described by exactly those words |
| Links.TagList | cli/python/links.py:24 | no tags exactly when the argument is empty; no stored tag contains a comma |
| Links.TagListRoundTrip | cli/python/links.py:24 | joining the stored tags with commas gives back the tags argument |
| Links.TagListOfJoin | cli/python/links.py:24 | comma-free names joined by commas come back as the same names, except the lone empty name |
| Links.AddLink | cli/python/links.py:19-28 | the link is appended with its url and time; the title is the given one, or the url when the title is empty; the tags are the comma-split tags argument; earlier links are unchanged |
| Links.RenderTagsShowsEach | cli/python/links.py:34 | the bracketed tags are joined by single spaces: every tag appears in brackets, and when no tag holds a space, splitting the rendering at spaces gives back the bracketed tags in order |
| Links.LinesOfLinks | cli/python/links.py:32-36 | each shown link prints two lines in order: the bullet title line, then its url indented by two spaces |
| Links.ListLinksShape | cli/python/links.py:30-36 | with no tag every link is shown; with a tag exactly the links carrying it; two lines each |
| Links.AddedLinkListedUnderItsTags | cli/python/links.py:19-36 | a link added with tags is listed under each of them |
| Fetch.Handle | cli/python/fetch.py:15-27 | a skip tag sets or clears the one flag; a text event outside a skip region appends its stripped form exactly when that is non-empty, and nothing else changes the kept text |
| Fetch.FeedSkip | cli/python/fetch.py:13-21 | after any events, the flag is set exactly when some skip tag opened and no skip tag of any name closed since |
| Fetch.FeedText | cli/python/fetch.py:23-27 | the extractor keeps exactly the non-blank stripped text events outside skip regions, in document order |
| Fetch.FeedPieces | cli/python/fetch.py:23-27 | every kept piece is non-empty and has no surrounding whitespace |
| Fetch.SkipDoesNotNest | cli/python/fetch.py:15-21 | an inner `</script>` ends the skipping of an outer `<nav>`, so the text after it is kept |
| Fetch.FetchTextShape | cli/python/fetch.py:29-36 | the fetched text has no surrounding whitespace, is empty exactly when nothing was kept, and contains every kept piece; when no piece holds a line feed, splitting it at line feeds gives back the kept pieces in order |
| Fetch.FetchOutput | cli/python/fetch.py:42 | the printed text is the fetched text's prefix of at most 5000 characters, all of it when it is shorter |

## Left out

- The embedding and vector-store HTTP calls (`get_embedding`, the upsert, the search request, `get_stats`): network I/O. The model stops at the requests and the hit list.
- The search `limit`: the store applies it, so the model takes the hits as given.
- uuid generation and `datetime.now()`: parameters (`id`, `timestamp`, `created`, `added`, `now`).
- File I/O: `Path.exists`, `read_text`, `glob`, `stat`, `open`/`seek`, and loading and saving JSON files. They are replaced by snapshots. `read_text` newline translation is not modelled, and neither is Python's `Path.name` computation.
- Byte offsets versus lines: a session log's `lines` are the parsed lines read from the stored offset. How bytes map to lines is not modelled.
- JSON and HTML parsing: a log line is a parsed record or `Malformed`, and a page is the parser's event list. JSON values other than objects, strings and lists, and fields of an unexpected JSON type inside a record, are not modelled. In the source some of these raise (a `message` that is not an object, a `content` that is not a list, a `text` that is not a string), others are stored as they are (a numeric `role` or `timestamp` goes into the metadata unchanged), and a non-string `type` just fails the comparison and is skipped.
- A log line that is valid JSON but not an object (`null`, a number, a boolean, a string or a list): `msg.get("type")` raises `AttributeError`, which the `JSONDecodeError` handler does not catch, so the source aborts the whole `ingest-sessions` run, and in the sync pass aborts before the state is saved. The model has no such line: `Malformed` stands only for a line `json.loads` rejects, and only those are skipped (`MemoryStore.MalformedLineIsSkipped`).
- `Strings.Strip`: only the ASCII whitespace of Python's `str.isspace`, not the Unicode spaces.
- `int(sys.argv[2])` in `tasks.py done` and the argument parsing of the `memory_store.py` and `links.py` commands: the model takes already-parsed arguments. The one command-line rule with logic, the `add` priority rule of `tasks.py`, is modelled.
- The `.md` modification time is an opaque fingerprint string. How `str(st_mtime)` formats a float is not modelled.
- Interruption midway through a pass, with its duplicated stores and unsaved offsets, and concurrent runs: the model is one pass run to completion.
- Console output other than the listings and the fetched text (the JSON results and confirmation messages of the commands).
- The `serve`, timer and JSON pretty-printing scripts of the repository: not part of this model.
- Tasks.ListTasks: states only that one line is printed per shown task; the line contents are stated by `Tasks.TaskLineShape`.
