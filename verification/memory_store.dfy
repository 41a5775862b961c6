/** The pure logic of cli/python/memory_store.py: building the payload of a stored
    memory, projecting search hits, chunked document ingestion and session-log
    ingestion. The embedding service and the vector store are not modelled: storing a
    memory is modelled as emitting a `StoreRequest`, and `StoreMemory` shows the point
    the store would receive for it, given the generated id and the current time. */
module MemoryStore {
  import opened Wrappers
  import opened Strings
  import Seqs
  import Chunker

  /** Texts and chunks of this length or less are never stored (`len(x) > 50`). */
  const MinLength: nat := 50
  /** Conversation texts are cut to their first 2000 characters (`text[:2000]`). */
  const MaxStoredText: nat := 2000
  /** The default `chunk_size` of `ingest_file`. */
  const DefaultChunkSize: int := 500

  /** A JSON value a payload can hold: the tools only put strings and integers there. */
  datatype Value = Str(s: string) | Int(n: int)

  type Payload = map<string, Value>

  /** The arguments of one `store_memory` call. */
  datatype StoreRequest = StoreRequest(text: string, memoryType: string, source: string, metadata: Payload)

  /** The point upserted into the collection; `id` is also what `store_memory` returns. */
  datatype Point = Point(id: string, payload: Payload)

  const BaseKeys: set<string> := {"text", "type", "source", "timestamp", "id"}

  /** `store_memory`: the base payload, overridden key by key by the metadata. The id
      is the caller's `uuid4`, the timestamp the caller's clock reading. */
  function StoreMemory(req: StoreRequest, id: string, timestamp: string): (p: Point)
    ensures p.id == id
    ensures p.payload.Keys == BaseKeys + req.metadata.Keys
    ensures forall k :: k in req.metadata ==> p.payload[k] == req.metadata[k]
    ensures "text" !in req.metadata ==> p.payload["text"] == Str(req.text)
    ensures "type" !in req.metadata ==> p.payload["type"] == Str(req.memoryType)
    ensures "source" !in req.metadata ==> p.payload["source"] == Str(req.source)
    ensures "timestamp" !in req.metadata ==> p.payload["timestamp"] == Str(timestamp)
    ensures "id" !in req.metadata ==> p.payload["id"] == Str(p.id)
  {
    var base := map[
      "text" := Str(req.text),
      "type" := Str(req.memoryType),
      "source" := Str(req.source),
      "timestamp" := Str(timestamp),
      "id" := Str(id)];
    Point(id, base + req.metadata)
  }

  /** One search hit: an opaque similarity score and the stored payload. */
  datatype Hit<S> = Hit(score: S, payload: Payload)

  /** One entry of `search_memories`' result. */
  datatype SearchResult<S> = SearchResult(score: S, text: Value, memoryType: Value, source: Value, timestamp: Value)

  /** `payload.get(key, "")`. */
  function Field(p: Payload, key: string): (v: Value)
    ensures key in p ==> v == p[key]
    ensures key !in p ==> v == Str("")
  {
    if key in p then p[key] else Str("")
  }

  function Project<S>(h: Hit<S>): SearchResult<S> {
    SearchResult(h.score, Field(h.payload, "text"), Field(h.payload, "type"),
      Field(h.payload, "source"), Field(h.payload, "timestamp"))
  }

  /** `search_memories` after the search call: one result per hit, in hit order. */
  function ProjectHits<S>(hits: seq<Hit<S>>): (r: seq<SearchResult<S>>)
    ensures |r| == |hits|
    ensures forall i :: 0 <= i < |r| ==> r[i].score == hits[i].score
    ensures forall i :: 0 <= i < |r| ==>
      && r[i].text == Field(hits[i].payload, "text")
      && r[i].memoryType == Field(hits[i].payload, "type")
      && r[i].source == Field(hits[i].payload, "source")
      && r[i].timestamp == Field(hits[i].payload, "timestamp")
  {
    seq(|hits|, i requires 0 <= i < |hits| => Project(hits[i]))
  }

  /** A memory stored without metadata that overrides its base fields comes back from a
      search with the text, type, source and timestamp it was stored with. */
  lemma StoredMemoryIsFound<S>(req: StoreRequest, id: string, timestamp: string, score: S)
    requires BaseKeys !! req.metadata.Keys
    ensures ProjectHits([Hit(score, StoreMemory(req, id, timestamp).payload)]) ==
      [SearchResult(score, Str(req.text), Str(req.memoryType), Str(req.source), Str(timestamp))]
  {
    var p := StoreMemory(req, id, timestamp).payload;
    assert "text" !in req.metadata && "type" !in req.metadata;
    assert "source" !in req.metadata && "timestamp" !in req.metadata;
  }

  datatype Error = FileNotFound(path: string) | DirectoryNotFound(path: string)

  // ---------------------------------------------------------------- ingest_file

  function ChunkMetadata(index: nat, filepath: string): Payload {
    map["chunk_index" := Int(index), "filepath" := Str(filepath)]
  }

  /** The store request for chunk `index` of a document. */
  function ChunkRequest(chunk: string, index: nat, source: string, filepath: string): StoreRequest {
    StoreRequest(chunk, "document", source, ChunkMetadata(index, filepath))
  }

  /** The `chunk_index` a request carries, or -1 when it has none. */
  function IndexOf(q: StoreRequest): int {
    if "chunk_index" in q.metadata && q.metadata["chunk_index"].Int? then q.metadata["chunk_index"].n else -1
  }

  /** Each request is the request of the long chunk at the index it carries, and the
      carried indices rise strictly along the list, as `enumerate` produces them. */
  ghost predicate StoredInChunkOrder(r: seq<StoreRequest>, chunks: seq<string>, source: string, filepath: string) {
    && (forall j :: 0 <= j < |r| ==>
          && 0 <= IndexOf(r[j]) < |chunks| && |chunks[IndexOf(r[j])]| > MinLength
          && r[j] == ChunkRequest(chunks[IndexOf(r[j])], IndexOf(r[j]), source, filepath))
    && (forall j1, j2 :: 0 <= j1 < j2 < |r| ==> IndexOf(r[j1]) < IndexOf(r[j2]))
  }

  /** The `enumerate(chunks)` loop of `ingest_file`: each chunk longer than the minimum
      is stored under its position in the full chunk list. */
  function DocumentRequests(chunks: seq<string>, source: string, filepath: string): (r: seq<StoreRequest>)
    ensures |r| <= |chunks|
    ensures forall j :: 0 <= j < |r| ==> exists i :: (0 <= i < |chunks| &&
      r[j] == ChunkRequest(chunks[i], i, source, filepath) && |chunks[i]| > MinLength)
    ensures StoredInChunkOrder(r, chunks, source, filepath)
  {
    if |chunks| == 0 then []
    else
      var n := |chunks| - 1;
      var front := DocumentRequests(chunks[..n], source, filepath);
      var q := ChunkRequest(chunks[n], n, source, filepath);
      var r := if |chunks[n]| > MinLength then front + [q] else front;
      assert StoredInChunkOrder(r, chunks, source, filepath) by {
        assert IndexOf(q) == n;
        forall j | 0 <= j < |front|
          ensures 0 <= IndexOf(front[j]) < n && chunks[IndexOf(front[j])] == chunks[..n][IndexOf(front[j])]
        {
        }
      }
      assert forall j :: 0 <= j < |r| ==> exists i :: (0 <= i < |chunks| &&
        r[j] == ChunkRequest(chunks[i], i, source, filepath) && |chunks[i]| > MinLength) by {
        forall j | 0 <= j < |r| ensures exists i :: (0 <= i < |chunks| &&
          r[j] == ChunkRequest(chunks[i], i, source, filepath) && |chunks[i]| > MinLength)
        {
          var i := IndexOf(r[j]);
          assert 0 <= i < |chunks| && r[j] == ChunkRequest(chunks[i], i, source, filepath) && |chunks[i]| > MinLength;
        }
      }
      r
  }

  /** Every chunk longer than the minimum is stored, with its own index. */
  lemma {:induction false} DocumentRequestsComplete(chunks: seq<string>, source: string, filepath: string, i: nat)
    requires i < |chunks| && |chunks[i]| > MinLength
    ensures ChunkRequest(chunks[i], i, source, filepath) in DocumentRequests(chunks, source, filepath)
  {
    var n := |chunks| - 1;
    if i < n {
      DocumentRequestsComplete(chunks[..n], source, filepath, i);
      assert chunks[..n][i] == chunks[i];
    }
  }

  /** Every chunk longer than the minimum is stored, with its own index. */
  lemma DocumentRequestsCompleteAll(chunks: seq<string>, source: string, filepath: string)
    ensures forall i :: 0 <= i < |chunks| && |chunks[i]| > MinLength ==>
      ChunkRequest(chunks[i], i, source, filepath) in DocumentRequests(chunks, source, filepath)
  {
    forall i | 0 <= i < |chunks| && |chunks[i]| > MinLength
      ensures ChunkRequest(chunks[i], i, source, filepath) in DocumentRequests(chunks, source, filepath)
    {
      DocumentRequestsComplete(chunks, source, filepath, i);
    }
  }

  /** `r` stores exactly the chunks longer than the minimum: its texts are those chunks
      in chunk order, each request is the request of a long chunk under that chunk's own
      index, the indices rise along `r`, and every long chunk is stored. */
  ghost predicate StoresLongChunks(r: seq<StoreRequest>, chunks: seq<string>, source: string, filepath: string) {
    && Texts(r) == Seqs.Filter((c: string) => |c| > MinLength, chunks)
    && (forall j :: 0 <= j < |r| ==> exists i :: (0 <= i < |chunks| &&
          r[j] == ChunkRequest(chunks[i], i, source, filepath) && |chunks[i]| > MinLength))
    && (forall i :: 0 <= i < |chunks| && |chunks[i]| > MinLength ==>
          ChunkRequest(chunks[i], i, source, filepath) in r)
    && StoredInChunkOrder(r, chunks, source, filepath)
  }

  /** The `enumerate(chunks)` loop stores exactly the long chunks, in chunk order. */
  lemma DocumentRequestsStoreLongChunks(chunks: seq<string>, source: string, filepath: string)
    ensures StoresLongChunks(DocumentRequests(chunks, source, filepath), chunks, source, filepath)
  {
    DocumentRequestsTexts(chunks, source, filepath);
    DocumentRequestsCompleteAll(chunks, source, filepath);
  }

  /** `ingest_file`: a missing file is an error before anything is stored; otherwise
      exactly the chunks of its content longer than the minimum are stored, in chunk
      order, each under its index in the full chunk list. `path` stands for
      `str(Path(filepath))`, `name` for `Path(filepath).name`, and `content` for the
      file's text when it exists. */
  function IngestFile(path: string, name: string, content: Option<string>, chunkSize: int):
    (r: Result<seq<StoreRequest>, Error>)
    ensures content.None? <==> r.Failure?
    ensures content.None? ==> r.error == FileNotFound(path)
    ensures content.Some? ==>
      StoresLongChunks(r.value, Chunker.Chunks(Chunker.Lines(content.value), chunkSize), name, path)
  {
    match content
    case None => Failure(FileNotFound(path))
    case Some(text) =>
      var chunks := Chunker.Chunks(Chunker.Lines(text), chunkSize);
      DocumentRequestsStoreLongChunks(chunks, name, path);
      Success(DocumentRequests(chunks, name, path))
  }

  /** The count `ingest_file` reports is the number of chunks longer than the minimum,
      and each is stored under its index in the full chunk list. */
  lemma IngestFileCount(path: string, name: string, text: string, chunkSize: int)
    ensures var chunks := Chunker.Chunks(Chunker.Lines(text), chunkSize);
      var r := IngestFile(path, name, Some(text), chunkSize);
      && r.Success?
      && |r.value| == |Seqs.Filter((c: string) => |c| > MinLength, chunks)|
  {
    var chunks := Chunker.Chunks(Chunker.Lines(text), chunkSize);
    DocumentRequestsCount(chunks, name, path);
  }

  /** The texts of a list of store requests. */
  function Texts(reqs: seq<StoreRequest>): seq<string> {
    Seqs.Map((q: StoreRequest) => q.text, reqs)
  }

  /** The chunks `ingest_file` stores are the long chunks, in chunk order. */
  lemma {:induction false} DocumentRequestsTexts(chunks: seq<string>, source: string, filepath: string)
    ensures Texts(DocumentRequests(chunks, source, filepath)) == Seqs.Filter((c: string) => |c| > MinLength, chunks)
  {
    if |chunks| > 0 {
      var n := |chunks| - 1;
      DocumentRequestsTexts(chunks[..n], source, filepath);
      var front := DocumentRequests(chunks[..n], source, filepath);
      if |chunks[n]| > MinLength {
        assert Texts(front + [ChunkRequest(chunks[n], n, source, filepath)]) == Texts(front) + [chunks[n]];
      }
    }
  }

  lemma {:induction false} DocumentRequestsCount(chunks: seq<string>, source: string, filepath: string)
    ensures |DocumentRequests(chunks, source, filepath)| == |Seqs.Filter((c: string) => |c| > MinLength, chunks)|
  {
    if |chunks| > 0 {
      DocumentRequestsCount(chunks[..|chunks| - 1], source, filepath);
    }
  }

  // ---------------------------------------------------------------- session logs

  /** One element of a message's `content` list. */
  datatype ContentItem = ContentItem(kind: Option<string>, text: Option<string>)

  /** The `message` object of a record. */
  datatype Message = Message(role: Option<string>, content: Option<seq<ContentItem>>)

  /** One line of a session log after `json.loads`: `Malformed` when `json.loads`
      rejects it; `Record` when it parses to a JSON object. A line that parses to any
      other JSON value makes the source raise and abort the run, so it has no case here. */
  datatype LogLine = Malformed | Record(kind: Option<string>, message: Option<Message>, timestamp: Option<string>)

  /** A `*.jsonl` session log: its name, its size in bytes, and the lines read from it
      (all of them for ingestion; those after the stored offset in the sync pass). */
  datatype LogFile = LogFile(name: string, size: nat, lines: seq<LogLine>)

  /** The admissible lengths of a conversation text: above the minimum, and below
      `upper` when there is one. */
  datatype Window = Window(upper: Option<nat>)

  /** Session ingestion has no upper bound. */
  const IngestWindow := Window(None)

  predicate InWindow(n: nat, w: Window) {
    n > MinLength && (w.upper.None? || n < w.upper.value)
  }

  function ItemText(item: ContentItem): string {
    item.text.GetOr("")
  }

  /** A content item is stored when it is a text item whose text length is in the window. */
  predicate Qualifies(item: ContentItem, w: Window) {
    item.kind == Some("text") && InWindow(|ItemText(item)|, w)
  }

  function ConversationMetadata(role: string, timestamp: string): Payload {
    map["role" := Str(role), "original_timestamp" := Str(timestamp)]
  }

  function ConversationRequest(item: ContentItem, source: string, role: string, timestamp: string): StoreRequest {
    StoreRequest(Take(ItemText(item), MaxStoredText), "conversation", source, ConversationMetadata(role, timestamp))
  }

  /** The request one content item yields: its text when it qualifies, else nothing. */
  function ItemRequest(item: ContentItem, source: string, role: string, timestamp: string, w: Window):
    seq<StoreRequest>
  {
    if Qualifies(item, w) then [ConversationRequest(item, source, role, timestamp)] else []
  }

  function ItemRequester(source: string, role: string, timestamp: string, w: Window): ContentItem -> seq<StoreRequest> {
    (item: ContentItem) => ItemRequest(item, source, role, timestamp, w)
  }

  /** The `for content in contents` loop. */
  function ItemRequests(items: seq<ContentItem>, source: string, role: string, timestamp: string, w: Window):
    seq<StoreRequest>
  {
    Seqs.FlatMap(ItemRequester(source, role, timestamp, w), items)
  }

  /** Each stored item is a conversation text of this log, with the record's role and
      timestamp, above the minimum length and at most 2000 characters. */
  lemma ItemRequestsShape(items: seq<ContentItem>, source: string, role: string, timestamp: string, w: Window)
    ensures var r := ItemRequests(items, source, role, timestamp, w);
      forall i :: 0 <= i < |r| ==>
        && r[i].memoryType == "conversation" && r[i].source == source
        && r[i].metadata == ConversationMetadata(role, timestamp)
        && MinLength < |r[i].text| <= MaxStoredText
  {
    var p := (q: StoreRequest) =>
      && q.memoryType == "conversation" && q.source == source
      && q.metadata == ConversationMetadata(role, timestamp)
      && MinLength < |q.text| <= MaxStoredText;
    Seqs.FlatMapAll(ItemRequester(source, role, timestamp, w), items, p);
  }

  /** The qualifying items of a content list, in order. */
  function Qualifying(items: seq<ContentItem>, w: Window): seq<ContentItem> {
    Seqs.Filter((it: ContentItem) => Qualifies(it, w), items)
  }

  /** Exactly the qualifying items are stored, in order, each cut to the first 2000
      characters, with the record's role and timestamp. */
  lemma {:induction false} ItemRequestsAreQualifyingItems(items: seq<ContentItem>, source: string,
    role: string, timestamp: string, w: Window)
    ensures ItemRequests(items, source, role, timestamp, w) ==
      seq(|Qualifying(items, w)|, j requires 0 <= j < |Qualifying(items, w)| =>
        ConversationRequest(Qualifying(items, w)[j], source, role, timestamp))
  {
    if |items| > 0 {
      ItemRequestsAreQualifyingItems(items[..|items| - 1], source, role, timestamp, w);
    }
  }

  /** A qualifying item of the list is stored. */
  lemma ItemRequestsHave(items: seq<ContentItem>, source: string, role: string, timestamp: string,
    w: Window, k: nat)
    requires k < |items| && Qualifies(items[k], w)
    ensures ConversationRequest(items[k], source, role, timestamp) in ItemRequests(items, source, role, timestamp, w)
  {
    var f := ItemRequester(source, role, timestamp, w);
    assert f(items[k]) == [ConversationRequest(items[k], source, role, timestamp)];
    Seqs.FlatMapHas(f, items, k, ConversationRequest(items[k], source, role, timestamp));
  }

  /** A record whose `type` is `"message"`. */
  predicate IsMessage(line: LogLine) {
    line.Record? && line.kind == Some("message")
  }

  /** `entry.get("message", {})`: an empty message when the record has none. */
  function MessageOf(line: LogLine): Message {
    if line.Record? then line.message.GetOr(Message(None, None)) else Message(None, None)
  }

  /** The record's content list, `[]` when the message or its `content` is missing. */
  function Contents(line: LogLine): (r: seq<ContentItem>)
    ensures MessageOf(line).content.None? ==> r == []
    ensures line.Record? && line.message.None? ==> r == []
  {
    MessageOf(line).content.GetOr([])
  }

  /** The record's role, `""` when the message or its `role` is missing. */
  function Role(line: LogLine): (r: string)
    ensures MessageOf(line).role.None? ==> r == ""
    ensures line.Record? && line.message.None? ==> r == ""
  {
    MessageOf(line).role.GetOr("")
  }

  /** The record's timestamp, `""` when it is missing. */
  function Stamp(line: LogLine): (r: string)
    ensures line.Record? && line.timestamp.None? ==> r == ""
  {
    if line.Record? then line.timestamp.GetOr("") else ""
  }

  /** The requests one log line produces: none for a malformed line or a record whose
      `type` is not `"message"`; for a message, one per qualifying content item, in
      order, carrying the record's role and timestamp, where a missing `message`,
      `role`, `content` or `timestamp` counts as `{}`, `""`, `[]` or `""`. */
  function LineRequests(source: string, line: LogLine, w: Window): (r: seq<StoreRequest>)
    ensures line.Malformed? ==> r == []
    ensures line.Record? && line.kind != Some("message") ==> r == []
    ensures IsMessage(line) ==>
      r == seq(|Qualifying(Contents(line), w)|, j requires 0 <= j < |Qualifying(Contents(line), w)| =>
        ConversationRequest(Qualifying(Contents(line), w)[j], source, Role(line), Stamp(line)))
    ensures IsMessage(line) && (line.message.None? || line.message.value.content.None?) ==> r == []
  {
    match line
    case Malformed => []
    case Record(kind, message, timestamp) =>
      if kind != Some("message") then []
      else
        var m := message.GetOr(Message(None, None));
        ItemRequestsAreQualifyingItems(m.content.GetOr([]), source, m.role.GetOr(""), timestamp.GetOr(""), w);
        ItemRequests(m.content.GetOr([]), source, m.role.GetOr(""), timestamp.GetOr(""), w)
  }

  function LineRequester(source: string, w: Window): LogLine -> seq<StoreRequest> {
    (line: LogLine) => LineRequests(source, line, w)
  }

  /** The requests for the lines of one log file, in line order. */
  function LogRequests(source: string, lines: seq<LogLine>, w: Window): seq<StoreRequest>
  {
    Seqs.FlatMap(LineRequester(source, w), lines)
  }

  /** What a request for a log's conversation text looks like. */
  predicate IsConversationOf(q: StoreRequest, source: string) {
    q.memoryType == "conversation" && q.source == source && MinLength < |q.text| <= MaxStoredText
  }

  /** Every request for a log is a conversation text of that log, above the minimum
      length and at most 2000 characters. */
  lemma LogRequestsShape(source: string, lines: seq<LogLine>, w: Window)
    ensures var r := LogRequests(source, lines, w);
      forall i :: 0 <= i < |r| ==> IsConversationOf(r[i], source)
  {
    var f := LineRequester(source, w);
    forall j, k | 0 <= j < |lines| && 0 <= k < |f(lines[j])|
      ensures IsConversationOf(f(lines[j])[k], source)
    {
      match lines[j]
      case Malformed =>
      case Record(kind, message, timestamp) =>
        var m := message.GetOr(Message(None, None));
        ItemRequestsShape(m.content.GetOr([]), source, m.role.GetOr(""), timestamp.GetOr(""), w);
    }
    Seqs.FlatMapAll(f, lines, (q: StoreRequest) => IsConversationOf(q, source));
  }

  lemma LogRequestsAppend(source: string, a: seq<LogLine>, b: seq<LogLine>, w: Window)
    ensures LogRequests(source, a + b, w) == LogRequests(source, a, w) + LogRequests(source, b, w)
  {
    Seqs.FlatMapAppend(LineRequester(source, w), a, b);
  }

  /** A line `json.loads` rejects, anywhere in a log, is skipped without affecting the
      other lines. */
  lemma MalformedLineIsSkipped(source: string, before: seq<LogLine>, after: seq<LogLine>, w: Window)
    ensures LogRequests(source, before + [Malformed] + after, w) == LogRequests(source, before + after, w)
  {
    LogRequestsAppend(source, before, [Malformed], w);
    LogRequestsAppend(source, before + [Malformed], after, w);
    LogRequestsAppend(source, before, after, w);
    assert LogRequests(source, [Malformed], w) == [] by {
      assert [Malformed][..0] == [];
    }
  }

  /** Session ingestion skips files whose name contains `.deleted.`. */
  predicate IsDeletedLog(name: string) {
    Contains(name, ".deleted.")
  }

  /** The requests for one listed log: none when it is marked deleted. */
  function FileRequests(f: LogFile): seq<StoreRequest> {
    if IsDeletedLog(f.name) then [] else LogRequests(f.name, f.lines, IngestWindow)
  }

  /** The requests for a list of session logs, in listing order. */
  function SessionRequests(files: seq<LogFile>): seq<StoreRequest>
  {
    Seqs.FlatMap(FileRequests, files)
  }

  /** A log file of the listing, not marked deleted, named `source`. */
  ghost predicate FromLiveLog(files: seq<LogFile>, source: string) {
    exists f :: f in files && source == f.name && !IsDeletedLog(f.name)
  }

  /** Every request of session ingestion is a conversation text of a log not marked deleted. */
  lemma SessionRequestsShape(files: seq<LogFile>)
    ensures var r := SessionRequests(files);
      forall i :: 0 <= i < |r| ==>
        && r[i].memoryType == "conversation" && MinLength < |r[i].text| <= MaxStoredText
        && FromLiveLog(files, r[i].source)
  {
    var r := SessionRequests(files);
    forall i | 0 <= i < |r|
      ensures r[i].memoryType == "conversation" && MinLength < |r[i].text| <= MaxStoredText
      ensures FromLiveLog(files, r[i].source)
    {
      Seqs.FlatMapOrigin(FileRequests, files, i);
      var j, k :| 0 <= j < |files| && 0 <= k < |FileRequests(files[j])| && r[i] == FileRequests(files[j])[k];
      var f := files[j];
      LogRequestsShape(f.name, f.lines, IngestWindow);
      assert IsConversationOf(r[i], f.name);
      assert f in files;
    }
  }

  /** Every qualifying text item of a message record in a listed log not marked deleted
      is stored, cut to 2000 characters, under the log's name with the record's role
      and timestamp. */
  lemma SessionRequestsComplete(files: seq<LogFile>, f: LogFile, line: LogLine, item: ContentItem)
    requires f in files && !IsDeletedLog(f.name) && line in f.lines && IsMessage(line)
    requires item in Contents(line) && Qualifies(item, IngestWindow)
    ensures ConversationRequest(item, f.name, Role(line), Stamp(line)) in SessionRequests(files)
  {
    var x := ConversationRequest(item, f.name, Role(line), Stamp(line));
    var k :| 0 <= k < |Contents(line)| && Contents(line)[k] == item;
    ItemRequestsHave(Contents(line), f.name, Role(line), Stamp(line), IngestWindow, k);
    assert x in LineRequests(f.name, line, IngestWindow);
    var li :| 0 <= li < |f.lines| && f.lines[li] == line;
    Seqs.FlatMapHas(LineRequester(f.name, IngestWindow), f.lines, li, x);
    assert x in FileRequests(f);
    var fi :| 0 <= fi < |files| && files[fi] == f;
    Seqs.FlatMapHas(FileRequests, files, fi, x);
  }

  /** `SessionRequestsComplete` for every log, line and item at once. */
  lemma SessionRequestsCompleteAll(files: seq<LogFile>)
    ensures forall f, line, item ::
      f in files && !IsDeletedLog(f.name) && line in f.lines && IsMessage(line) &&
      item in Contents(line) && Qualifies(item, IngestWindow) ==>
        ConversationRequest(item, f.name, Role(line), Stamp(line)) in SessionRequests(files)
  {
    forall f, line, item |
      f in files && !IsDeletedLog(f.name) && line in f.lines && IsMessage(line) &&
      item in Contents(line) && Qualifies(item, IngestWindow)
      ensures ConversationRequest(item, f.name, Role(line), Stamp(line)) in SessionRequests(files)
    {
      SessionRequestsComplete(files, f, line, item);
    }
  }

  /** `q` is the request of a qualifying text item of a message record in a listed log
      not marked deleted: that item's text cut to 2000 characters, under the log's name,
      with the record's role and timestamp. */
  ghost predicate FromQualifyingItem(files: seq<LogFile>, q: StoreRequest) {
    exists f, line, item ::
      f in files && !IsDeletedLog(f.name) && line in f.lines && IsMessage(line) &&
      item in Contents(line) && Qualifies(item, IngestWindow) &&
      q == ConversationRequest(item, f.name, Role(line), Stamp(line))
  }

  /** Every request of session ingestion comes from a qualifying text item of a message
      record in a listed log not marked deleted. */
  lemma SessionRequestsOrigin(files: seq<LogFile>, i: nat)
    requires i < |SessionRequests(files)|
    ensures FromQualifyingItem(files, SessionRequests(files)[i])
  {
    var r := SessionRequests(files);
    Seqs.FlatMapOrigin(FileRequests, files, i);
    var j, k :| 0 <= j < |files| && 0 <= k < |FileRequests(files[j])| && r[i] == FileRequests(files[j])[k];
    var f := files[j];
    var g := LineRequester(f.name, IngestWindow);
    Seqs.FlatMapOrigin(g, f.lines, k);
    var li, m :| 0 <= li < |f.lines| && 0 <= m < |g(f.lines[li])| && r[i] == g(f.lines[li])[m];
    var line := f.lines[li];
    assert IsMessage(line);
    var item := Qualifying(Contents(line), IngestWindow)[m];
    assert r[i] == ConversationRequest(item, f.name, Role(line), Stamp(line));
    assert f in files && line in f.lines;
  }

  /** `SessionRequestsOrigin` for every request at once. */
  lemma SessionRequestsOriginAll(files: seq<LogFile>)
    ensures forall i :: 0 <= i < |SessionRequests(files)| ==> FromQualifyingItem(files, SessionRequests(files)[i])
  {
    var r := SessionRequests(files);
    forall i | 0 <= i < |r| ensures FromQualifyingItem(files, r[i]) {
      SessionRequestsOrigin(files, i);
    }
  }

  /** The listed logs not marked deleted, in listing order. */
  function LiveLogs(files: seq<LogFile>): seq<LogFile> {
    Seqs.Filter((f: LogFile) => !IsDeletedLog(f.name), files)
  }

  /** The requests of one log that is read in full. */
  function WholeLogRequests(f: LogFile): seq<StoreRequest> {
    LogRequests(f.name, f.lines, IngestWindow)
  }

  /** Session ingestion stores, log after log in listing order, the requests of exactly
      the logs not marked deleted, each once. */
  lemma {:induction false} SessionRequestsOfLiveLogs(files: seq<LogFile>)
    ensures SessionRequests(files) == Seqs.FlatMap(WholeLogRequests, LiveLogs(files))
  {
    if |files| > 0 {
      var n := |files| - 1;
      var front := files[..n];
      var f := files[n];
      SessionRequestsOfLiveLogs(front);
      var keep := if IsDeletedLog(f.name) then [] else [f];
      assert SessionRequests(files) == SessionRequests(front) + FileRequests(f);
      assert Seqs.FlatMap(WholeLogRequests, keep) == FileRequests(f) by {
        if keep != [] {
          assert keep[..0] == [];
          assert Seqs.FlatMap(WholeLogRequests, keep) == Seqs.FlatMap(WholeLogRequests, []) + WholeLogRequests(f);
        }
      }
      assert LiveLogs(files) == LiveLogs(front) + keep;
      Seqs.FlatMapAppend(WholeLogRequests, LiveLogs(front), keep);
    }
  }

  /** `ingest_session_logs`: a missing directory is an error before anything is stored;
      otherwise the stored requests are those of the logs not marked deleted, in listing
      order: each comes from a qualifying text item of a message record in such a log,
      and every such item is stored. `dir` is the `*.jsonl` listing of the directory when it exists. */
  function IngestSessionLogs(path: string, dir: Option<seq<LogFile>>): (r: Result<seq<StoreRequest>, Error>)
    ensures dir.None? <==> r.Failure?
    ensures dir.None? ==> r.error == DirectoryNotFound(path)
    ensures dir.Some? ==> forall i :: 0 <= i < |r.value| ==>
      && r.value[i].memoryType == "conversation" && MinLength < |r.value[i].text| <= MaxStoredText
      && FromLiveLog(dir.value, r.value[i].source)
    ensures dir.Some? ==> forall f, line, item ::
      f in dir.value && !IsDeletedLog(f.name) && line in f.lines && IsMessage(line) &&
      item in Contents(line) && Qualifies(item, IngestWindow) ==>
        ConversationRequest(item, f.name, Role(line), Stamp(line)) in r.value
    ensures dir.Some? ==> forall i :: 0 <= i < |r.value| ==> FromQualifyingItem(dir.value, r.value[i])
    ensures dir.Some? ==> r.value == Seqs.FlatMap(WholeLogRequests, LiveLogs(dir.value))
  {
    match dir
    case None => Failure(DirectoryNotFound(path))
    case Some(files) =>
      SessionRequestsShape(files);
      SessionRequestsCompleteAll(files);
      SessionRequestsOriginAll(files);
      SessionRequestsOfLiveLogs(files);
      Success(SessionRequests(files))
  }
}
