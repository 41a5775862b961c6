/** One pass of cli/python/memory_sync.py: the incremental tracker that stores only
    new conversation lines of session logs and changed memory documents.

    The file system is replaced by snapshots: a session log is its name, its current
    size in bytes and the lines read after seeking to the stored offset; a document is
    its name, `str(st_mtime)` as an opaque string, and its text. The listing order of
    each snapshot is the `glob` order. */
module MemorySync {
  import opened Wrappers
  import opened Strings
  import Seqs
  import Chunker
  import opened MemoryStore

  /** The sync pass chunks documents with a fixed limit of 500 characters. */
  const SyncChunkSize: int := 500

  /** The sync pass stores conversation texts of fewer than 5000 characters only. */
  const SyncWindow := Window(Some(5000))

  /** The persisted state: a missing key of the JSON object is `None`. */
  datatype SyncState = SyncState(
    lastPositions: Option<map<string, nat>>,
    fileHashes: Option<map<string, string>>,
    lastSync: Option<string>)

  /** `load_state`: the saved state, or the initial one when no state file exists. */
  function LoadState(saved: Option<SyncState>): SyncState {
    saved.GetOr(SyncState(Some(map[]), None, None))
  }

  // ---------------------------------------------------------------- session logs

  /** Logs marked deleted and lock files are never read. */
  predicate IsSkippedLog(name: string) {
    Contains(name, ".deleted.") || Contains(name, ".lock")
  }

  /** `positions.get(name, 0)`. */
  function Offset(positions: map<string, nat>, name: string): nat {
    Get(positions, name).GetOr(0)
  }

  /** The names of the listed logs, in listing order. */
  function LogNames(files: seq<LogFile>): seq<string> {
    Seqs.Map((f: LogFile) => f.name, files)
  }

  /** The log phase's result: the new offsets and the logs it read, in listing order. */
  datatype LogPass = LogPass(positions: map<string, nat>, read: seq<LogFile>)

  /** One iteration of the loop of `sync_session_logs`: a log skipped by name, or not
      larger than its stored offset, is left alone; any other is read from the offset
      and its offset becomes its size. */
  function SyncLog(positions: map<string, nat>, f: LogFile): LogPass {
    if IsSkippedLog(f.name) || f.size <= Offset(positions, f.name) then LogPass(positions, [])
    else LogPass(positions[f.name := f.size], [f])
  }

  /** The log phase reads a log when its name is not skipped and it grew past its stored offset. */
  predicate ShouldRead(positions: map<string, nat>, f: LogFile) {
    !IsSkippedLog(f.name) && f.size > Offset(positions, f.name)
  }

  /** The logs of a listing the log phase should read, in listing order. */
  function ToRead(positions: map<string, nat>, files: seq<LogFile>): seq<LogFile> {
    Seqs.Filter((f: LogFile) => ShouldRead(positions, f), files)
  }

  /** `sync_session_logs`: stored offsets never decrease, the offsets of logs not in the
      listing (vanished ones included) are kept as they are, and only listed logs that
      are not skipped by name are read. */
  function SyncLogs(positions: map<string, nat>, files: seq<LogFile>): (r: LogPass)
    ensures forall k :: k in positions ==> k in r.positions && r.positions[k] >= positions[k]
    ensures forall k :: k !in LogNames(files) ==> Get(r.positions, k) == Get(positions, k)
    ensures forall i :: 0 <= i < |r.read| ==> r.read[i] in files && !IsSkippedLog(r.read[i].name)
  {
    if |files| == 0 then LogPass(positions, [])
    else
      var front := files[..|files| - 1];
      var f := files[|files| - 1];
      var a := SyncLogs(positions, front);
      var b := SyncLog(a.positions, f);
      assert forall k :: k !in LogNames(files) ==> k !in LogNames(front) && k != f.name by {
        assert forall i :: 0 <= i < |front| ==> LogNames(front)[i] == LogNames(files)[i];
        assert LogNames(files)[|files| - 1] == f.name;
      }
      assert forall g :: g in front ==> g in files;
      LogPass(b.positions, a.read + b.read)
  }

  /** The store requests for the new lines of a log that was read. */
  function NewLineRequests(f: LogFile): seq<StoreRequest> {
    LogRequests(f.name, f.lines, SyncWindow)
  }

  /** The store requests of the log phase: those of each log read, in turn. */
  function ReadRequests(read: seq<LogFile>): seq<StoreRequest> {
    Seqs.FlatMap(NewLineRequests, read)
  }

  /** Every request of the log phase is a conversation text of one of the logs read,
      above the minimum length and at most 2000 characters. */
  lemma ReadRequestsShape(read: seq<LogFile>)
    ensures var r := ReadRequests(read);
      forall i :: 0 <= i < |r| ==> exists f :: f in read && IsConversationOf(r[i], f.name)
  {
    var r := ReadRequests(read);
    forall i | 0 <= i < |r| ensures exists f :: f in read && IsConversationOf(r[i], f.name) {
      Seqs.FlatMapOrigin(NewLineRequests, read, i);
      var j, k :| 0 <= j < |read| && 0 <= k < |NewLineRequests(read[j])| && r[i] == NewLineRequests(read[j])[k];
      var f := read[j];
      LogRequestsShape(f.name, f.lines, SyncWindow);
      assert IsConversationOf(r[i], f.name);
    }
  }

  /** The log names of a listing are distinct, as they are in a directory. */
  ghost predicate DistinctLogNames(files: seq<LogFile>) {
    forall i, j :: 0 <= i < j < |files| ==> files[i].name != files[j].name
  }

  lemma DistinctLogNamesFront(files: seq<LogFile>)
    requires |files| > 0 && DistinctLogNames(files)
    ensures DistinctLogNames(files[..|files| - 1])
    ensures files[|files| - 1].name !in LogNames(files[..|files| - 1])
  {
    var front := files[..|files| - 1];
    forall i, j | 0 <= i < j < |front| ensures front[i].name != front[j].name {
      assert front[i] == files[i] && front[j] == files[j];
    }
  }

  /** With distinct names, the pass sets each log it should read to its size, and leaves
      every other listed log's offset untouched, present or absent: a log skipped by
      name, one that did not grow, and one that shrank alike. */
  lemma {:induction false} SyncLogsOffsets(positions: map<string, nat>, files: seq<LogFile>)
    requires DistinctLogNames(files)
    ensures forall f :: f in files ==>
      Get(SyncLogs(positions, files).positions, f.name) ==
        if ShouldRead(positions, f) then Some(f.size) else Get(positions, f.name)
  {
    if |files| > 0 {
      var front := files[..|files| - 1];
      var f := files[|files| - 1];
      DistinctLogNamesFront(files);
      SyncLogsOffsets(positions, front);
      forall g | g in files
        ensures Get(SyncLogs(positions, files).positions, g.name) ==
          if ShouldRead(positions, g) then Some(g.size) else Get(positions, g.name)
      {
        if g != f {
          var i :| 0 <= i < |files| && files[i] == g;
          assert i < |files| - 1;
          assert g in front;
          assert files[i].name != files[|files| - 1].name;
        }
      }
    }
  }

  /** With distinct names, the log phase reads exactly the logs it should read, in
      listing order: every log not skipped by name that grew past its stored offset. */
  lemma {:induction false} SyncLogsReads(positions: map<string, nat>, files: seq<LogFile>)
    requires DistinctLogNames(files)
    ensures SyncLogs(positions, files).read == ToRead(positions, files)
  {
    if |files| > 0 {
      var n := |files| - 1;
      var front := files[..n];
      var f := files[n];
      DistinctLogNamesFront(files);
      SyncLogsReads(positions, front);
      var a := SyncLogs(positions, front);
      assert Get(a.positions, f.name) == Get(positions, f.name);
      assert SyncLog(a.positions, f).read == if ShouldRead(positions, f) then [f] else [];
      assert ToRead(positions, files) == ToRead(positions, front) + (if ShouldRead(positions, f) then [f] else []);
    }
  }

  /** A pass in which every log is skipped or has not grown reads nothing and changes nothing. */
  lemma {:induction false} SyncLogsNothingNew(positions: map<string, nat>, files: seq<LogFile>)
    requires forall f :: f in files ==> IsSkippedLog(f.name) || f.size <= Offset(positions, f.name)
    ensures SyncLogs(positions, files) == LogPass(positions, [])
  {
    if |files| > 0 {
      var front := files[..|files| - 1];
      assert forall f :: f in front ==> f in files;
      SyncLogsNothingNew(positions, front);
    }
  }

  /** Snapshots that agree on the name and size of every log. */
  ghost predicate SameLogSizes(files: seq<LogFile>, files': seq<LogFile>) {
    |files| == |files'| && forall i :: 0 <= i < |files| ==>
      files'[i].name == files[i].name && files'[i].size == files[i].size
  }

  /** A second log pass over logs that have not grown reads nothing and keeps every offset. */
  lemma SyncLogsIdempotent(positions: map<string, nat>, files: seq<LogFile>, files': seq<LogFile>)
    requires DistinctLogNames(files) && SameLogSizes(files, files')
    ensures var p := SyncLogs(positions, files).positions;
      SyncLogs(p, files') == LogPass(p, [])
  {
    var p := SyncLogs(positions, files).positions;
    SyncLogsOffsets(positions, files);
    forall f' | f' in files' ensures IsSkippedLog(f'.name) || f'.size <= Offset(p, f'.name) {
      var i :| 0 <= i < |files'| && files'[i] == f';
      assert files[i] in files;
    }
    SyncLogsNothingNew(p, files');
  }

  /** A log that shrank below its stored offset is skipped and keeps the larger offset:
      the stored offset can exceed the file's current size. */
  lemma ShrunkLogKeepsOffset(positions: map<string, nat>, f: LogFile)
    requires f.name in positions && f.size < positions[f.name]
    ensures SyncLogs(positions, [f]) == LogPass(positions, [])
    ensures SyncLogs(positions, [f]).positions[f.name] > f.size
  {
    assert [f][..0] == [];
  }

  // ---------------------------------------------------------------- memory documents

  /** A `*.md` memory document: name, `str(st_mtime)` and text. */
  datatype Document = Document(name: string, mtime: string, content: string)

  /** The names of the listed documents, in listing order. */
  function DocNames(docs: seq<Document>): seq<string> {
    Seqs.Map((d: Document) => d.name, docs)
  }

  /** The document phase's result: the new fingerprints and the documents it re-chunked,
      in listing order. */
  datatype DocPass = DocPass(hashes: map<string, string>, changed: seq<Document>)

  /** The store request for one chunk of a changed document: kept when it is longer
      than the minimum, with no metadata. */
  function DocChunkRequest(source: string, chunk: string): seq<StoreRequest> {
    if |chunk| > MinLength then [StoreRequest(chunk, "document", source, map[])] else []
  }

  function DocChunkRequester(source: string): string -> seq<StoreRequest> {
    (chunk: string) => DocChunkRequest(source, chunk)
  }

  /** The store requests for a list of chunks of the document `source`. */
  function ChunkRequests(source: string, chunks: seq<string>): seq<StoreRequest> {
    Seqs.FlatMap(DocChunkRequester(source), chunks)
  }

  /** The store requests for a changed document: its long chunks at the sync chunk size. */
  function DocumentRequestsOf(d: Document): seq<StoreRequest> {
    ChunkRequests(d.name, Chunker.Chunks(Chunker.Lines(d.content), SyncChunkSize))
  }

  /** The store requests of the document phase: those of each changed document in turn. */
  function ChangedRequests(changed: seq<Document>): seq<StoreRequest> {
    Seqs.FlatMap(DocumentRequestsOf, changed)
  }

  /** What a request for a chunk of document `source` looks like. */
  predicate IsDocumentChunkOf(q: StoreRequest, source: string) {
    q.memoryType == "document" && q.source == source && q.metadata == map[] && |q.text| > MinLength
  }

  /** Every request for a list of chunks is one of the long chunks, as a document with no metadata. */
  lemma ChunkRequestsShape(source: string, chunks: seq<string>)
    ensures var r := ChunkRequests(source, chunks);
      forall i :: 0 <= i < |r| ==> IsDocumentChunkOf(r[i], source)
  {
    Seqs.FlatMapAll(DocChunkRequester(source), chunks, (q: StoreRequest) => IsDocumentChunkOf(q, source));
  }

  /** The texts stored for a list of chunks are its long chunks, in order. */
  lemma {:induction false} ChunkRequestsTexts(source: string, chunks: seq<string>)
    ensures Texts(ChunkRequests(source, chunks)) == Seqs.Filter((c: string) => |c| > MinLength, chunks)
  {
    if |chunks| > 0 {
      var n := |chunks| - 1;
      ChunkRequestsTexts(source, chunks[..n]);
      var front := ChunkRequests(source, chunks[..n]);
      assert Texts(front + DocChunkRequest(source, chunks[n])) ==
        Texts(front) + (if |chunks[n]| > MinLength then [chunks[n]] else []);
    }
  }

  lemma SameTexts(name: string, path: string, chunks: seq<string>)
    ensures Texts(ChunkRequests(name, chunks)) == Texts(DocumentRequests(chunks, name, path))
  {
    DocumentRequestsTexts(chunks, name, path);
    ChunkRequestsTexts(name, chunks);
  }

  /** The document phase stores the same chunks, in the same order, as `ingest_file`
      with its default chunk size: the sync chunker is the ingestion chunker at 500. */
  lemma SyncChunksAreIngestChunks(path: string, d: Document)
    ensures Texts(DocumentRequestsOf(d)) ==
      Texts(IngestFile(path, d.name, Some(d.content), DefaultChunkSize).value)
  {
    SameTexts(d.name, path, Chunker.Chunks(Chunker.Lines(d.content), SyncChunkSize));
  }

  /** Every request of the document phase is a long chunk of a re-chunked document. */
  lemma ChangedRequestsShape(changed: seq<Document>)
    ensures var r := ChangedRequests(changed);
      forall i :: 0 <= i < |r| ==> exists d :: d in changed && IsDocumentChunkOf(r[i], d.name)
  {
    var r := ChangedRequests(changed);
    forall i | 0 <= i < |r| ensures exists d :: d in changed && IsDocumentChunkOf(r[i], d.name) {
      Seqs.FlatMapOrigin(DocumentRequestsOf, changed, i);
      var j, k :| 0 <= j < |changed| && 0 <= k < |DocumentRequestsOf(changed[j])| && r[i] == DocumentRequestsOf(changed[j])[k];
      var d := changed[j];
      ChunkRequestsShape(d.name, Chunker.Chunks(Chunker.Lines(d.content), SyncChunkSize));
      assert IsDocumentChunkOf(r[i], d.name);
    }
  }

  /** One iteration of the loop of `sync_memory_files`: a document whose stored
      fingerprint equals its current one is skipped, any other is re-chunked whole. */
  function SyncDoc(hashes: map<string, string>, d: Document): DocPass {
    if Get(hashes, d.name) == Some(d.mtime) then DocPass(hashes, [])
    else DocPass(hashes[d.name := d.mtime], [d])
  }

  /** The document phase re-chunks a document when its stored fingerprint differs from
      its current modification time, a missing fingerprint included. */
  predicate IsStale(hashes: map<string, string>, d: Document) {
    Get(hashes, d.name) != Some(d.mtime)
  }

  /** The documents of a listing the document phase should re-chunk, in listing order. */
  function ToRechunk(hashes: map<string, string>, docs: seq<Document>): seq<Document> {
    Seqs.Filter((d: Document) => IsStale(hashes, d), docs)
  }

  /** `sync_memory_files`: no fingerprint is removed, the fingerprints of documents not
      in the listing are kept as they are, and only listed documents are re-chunked. */
  function SyncDocs(hashes: map<string, string>, docs: seq<Document>): (r: DocPass)
    ensures hashes.Keys <= r.hashes.Keys
    ensures forall k :: k !in DocNames(docs) ==> Get(r.hashes, k) == Get(hashes, k)
    ensures forall i :: 0 <= i < |r.changed| ==> r.changed[i] in docs
  {
    if |docs| == 0 then DocPass(hashes, [])
    else
      var front := docs[..|docs| - 1];
      var d := docs[|docs| - 1];
      var a := SyncDocs(hashes, front);
      var b := SyncDoc(a.hashes, d);
      assert forall k :: k !in DocNames(docs) ==> k !in DocNames(front) && k != d.name by {
        assert forall i :: 0 <= i < |front| ==> DocNames(front)[i] == DocNames(docs)[i];
        assert DocNames(docs)[|docs| - 1] == d.name;
      }
      assert forall e :: e in front ==> e in docs;
      DocPass(b.hashes, a.changed + b.changed)
  }

  ghost predicate DistinctDocNames(docs: seq<Document>) {
    forall i, j :: 0 <= i < j < |docs| ==> docs[i].name != docs[j].name
  }

  lemma DistinctDocNamesFront(docs: seq<Document>)
    requires |docs| > 0 && DistinctDocNames(docs)
    ensures DistinctDocNames(docs[..|docs| - 1])
    ensures docs[|docs| - 1].name !in DocNames(docs[..|docs| - 1])
  {
    var front := docs[..|docs| - 1];
    forall i, j | 0 <= i < j < |front| ensures front[i].name != front[j].name {
      assert front[i] == docs[i] && front[j] == docs[j];
    }
  }

  /** With distinct names, every listed document ends the pass with its current fingerprint. */
  lemma {:induction false} SyncDocsFingerprints(hashes: map<string, string>, docs: seq<Document>)
    requires DistinctDocNames(docs)
    ensures forall d :: d in docs ==> Get(SyncDocs(hashes, docs).hashes, d.name) == Some(d.mtime)
  {
    if |docs| > 0 {
      var front := docs[..|docs| - 1];
      var d := docs[|docs| - 1];
      DistinctDocNamesFront(docs);
      SyncDocsFingerprints(hashes, front);
      forall e | e in docs ensures Get(SyncDocs(hashes, docs).hashes, e.name) == Some(e.mtime) {
        if e != d {
          var i :| 0 <= i < |docs| && docs[i] == e;
          assert i < |docs| - 1;
          assert e in front;
          assert docs[i].name != docs[|docs| - 1].name;
        }
      }
    }
  }

  /** With distinct names, the document phase re-chunks exactly the documents whose
      fingerprint is stale, in listing order. */
  lemma {:induction false} SyncDocsRechunks(hashes: map<string, string>, docs: seq<Document>)
    requires DistinctDocNames(docs)
    ensures SyncDocs(hashes, docs).changed == ToRechunk(hashes, docs)
  {
    if |docs| > 0 {
      var n := |docs| - 1;
      var front := docs[..n];
      var d := docs[n];
      DistinctDocNamesFront(docs);
      SyncDocsRechunks(hashes, front);
      var a := SyncDocs(hashes, front);
      assert Get(a.hashes, d.name) == Get(hashes, d.name);
      assert SyncDoc(a.hashes, d).changed == if IsStale(hashes, d) then [d] else [];
      assert ToRechunk(hashes, docs) == ToRechunk(hashes, front) + (if IsStale(hashes, d) then [d] else []);
    }
  }

  /** A pass in which every document's fingerprint is current re-chunks nothing and changes nothing. */
  lemma {:induction false} SyncDocsNothingNew(hashes: map<string, string>, docs: seq<Document>)
    requires forall d :: d in docs ==> Get(hashes, d.name) == Some(d.mtime)
    ensures SyncDocs(hashes, docs) == DocPass(hashes, [])
  {
    if |docs| > 0 {
      var front := docs[..|docs| - 1];
      assert forall d :: d in front ==> d in docs;
      SyncDocsNothingNew(hashes, front);
    }
  }

  ghost predicate SameFingerprints(docs: seq<Document>, docs': seq<Document>) {
    |docs| == |docs'| && forall i :: 0 <= i < |docs| ==>
      docs'[i].name == docs[i].name && docs'[i].mtime == docs[i].mtime
  }

  /** A second document pass over unmodified documents re-chunks nothing and keeps every fingerprint. */
  lemma SyncDocsIdempotent(hashes: map<string, string>, docs: seq<Document>, docs': seq<Document>)
    requires DistinctDocNames(docs) && SameFingerprints(docs, docs')
    ensures var h := SyncDocs(hashes, docs).hashes;
      SyncDocs(h, docs') == DocPass(h, [])
  {
    var h := SyncDocs(hashes, docs).hashes;
    SyncDocsFingerprints(hashes, docs);
    forall d' | d' in docs' ensures Get(h, d'.name) == Some(d'.mtime) {
      var i :| 0 <= i < |docs'| && docs'[i] == d';
      assert docs[i] in docs;
    }
    SyncDocsNothingNew(h, docs');
  }

  // ---------------------------------------------------------------- the pass

  /** The result of `main`: the state it saves, the two counts it reports and the
      store requests it made, in order. */
  datatype PassResult = PassResult(state: SyncState, sessionCount: nat, memoryCount: nat, requests: seq<StoreRequest>)

  /** `main`: load the state, sync the logs, then the documents, then stamp `last_sync`
      with the caller's clock reading. The log phase's requests come first, then the
      document phase's, and the two counts are their numbers. */
  function SyncPass(saved: Option<SyncState>, logs: seq<LogFile>, docs: seq<Document>, now: string): (r: PassResult)
    ensures r.state.lastSync == Some(now)
    ensures r.state.lastPositions.Some? && r.state.fileHashes.Some?
    ensures r.sessionCount + r.memoryCount == |r.requests|
  {
    var state := LoadState(saved);
    var lp := SyncLogs(state.lastPositions.GetOr(map[]), logs);
    var dp := SyncDocs(state.fileHashes.GetOr(map[]), docs);
    var logRequests := ReadRequests(lp.read);
    var docRequests := ChangedRequests(dp.changed);
    PassResult(SyncState(Some(lp.positions), Some(dp.hashes), Some(now)),
      |logRequests|, |docRequests|, logRequests + docRequests)
  }

  /** A conversation text of a listed log that is not skipped by name. */
  ghost predicate FromSessionLog(logs: seq<LogFile>, q: StoreRequest) {
    exists f :: f in logs && !IsSkippedLog(f.name) && IsConversationOf(q, f.name)
  }

  /** A long chunk of a listed document. */
  ghost predicate FromDocument(docs: seq<Document>, q: StoreRequest) {
    exists d :: d in docs && IsDocumentChunkOf(q, d.name)
  }

  lemma ReadRequestsFromLogs(read: seq<LogFile>, logs: seq<LogFile>)
    requires forall i :: 0 <= i < |read| ==> read[i] in logs && !IsSkippedLog(read[i].name)
    ensures forall i :: 0 <= i < |ReadRequests(read)| ==> FromSessionLog(logs, ReadRequests(read)[i])
  {
    ReadRequestsShape(read);
    forall i | 0 <= i < |ReadRequests(read)| ensures FromSessionLog(logs, ReadRequests(read)[i]) {
      var f :| f in read && IsConversationOf(ReadRequests(read)[i], f.name);
      var j :| 0 <= j < |read| && read[j] == f;
    }
  }

  lemma ChangedRequestsFromDocs(changed: seq<Document>, docs: seq<Document>)
    requires forall i :: 0 <= i < |changed| ==> changed[i] in docs
    ensures forall i :: 0 <= i < |ChangedRequests(changed)| ==> FromDocument(docs, ChangedRequests(changed)[i])
  {
    ChangedRequestsShape(changed);
    forall i | 0 <= i < |ChangedRequests(changed)| ensures FromDocument(docs, ChangedRequests(changed)[i]) {
      var d :| d in changed && IsDocumentChunkOf(ChangedRequests(changed)[i], d.name);
      var j :| 0 <= j < |changed| && changed[j] == d;
    }
  }

  lemma ConcatParts(a: seq<StoreRequest>, b: seq<StoreRequest>, logs: seq<LogFile>, docs: seq<Document>)
    requires forall i :: 0 <= i < |a| ==> FromSessionLog(logs, a[i])
    requires forall i :: 0 <= i < |b| ==> FromDocument(docs, b[i])
    ensures forall i :: 0 <= i < |a| ==> FromSessionLog(logs, (a + b)[i])
    ensures forall i :: |a| <= i < |a + b| ==> FromDocument(docs, (a + b)[i])
  {
    forall i | |a| <= i < |a + b| ensures FromDocument(docs, (a + b)[i]) {
      assert (a + b)[i] == b[i - |a|];
    }
  }

  /** The session phase's requests come first and are conversation texts of readable
      logs; the memory phase's follow and are long chunks of listed documents. */
  lemma SyncPassOrder(saved: Option<SyncState>, logs: seq<LogFile>, docs: seq<Document>, now: string)
    ensures var r := SyncPass(saved, logs, docs, now);
      && (forall i :: 0 <= i < r.sessionCount ==> FromSessionLog(logs, r.requests[i]))
      && (forall i :: r.sessionCount <= i < |r.requests| ==> FromDocument(docs, r.requests[i]))
  {
    var state := LoadState(saved);
    var lp := SyncLogs(state.lastPositions.GetOr(map[]), logs);
    var dp := SyncDocs(state.fileHashes.GetOr(map[]), docs);
    ReadRequestsFromLogs(lp.read, logs);
    ChangedRequestsFromDocs(dp.changed, docs);
    ConcatParts(ReadRequests(lp.read), ChangedRequests(dp.changed), logs, docs);
  }

  /** With distinct names, a pass stores the new conversation texts of exactly the logs
      it should read, then the long chunks of exactly the stale documents; it reports
      their numbers; and no stored offset or fingerprint is lost or moves backwards. */
  lemma SyncPassStoresNewContent(saved: Option<SyncState>, logs: seq<LogFile>, docs: seq<Document>, now: string)
    requires DistinctLogNames(logs) && DistinctDocNames(docs)
    ensures var state := LoadState(saved);
      var p := state.lastPositions.GetOr(map[]);
      var h := state.fileHashes.GetOr(map[]);
      var r := SyncPass(saved, logs, docs, now);
      && r.requests == ReadRequests(ToRead(p, logs)) + ChangedRequests(ToRechunk(h, docs))
      && r.sessionCount == |ReadRequests(ToRead(p, logs))|
      && r.memoryCount == |ChangedRequests(ToRechunk(h, docs))|
      && (forall k :: k in p ==> k in r.state.lastPositions.value && r.state.lastPositions.value[k] >= p[k])
      && h.Keys <= r.state.fileHashes.value.Keys
  {
    var state := LoadState(saved);
    SyncLogsReads(state.lastPositions.GetOr(map[]), logs);
    SyncDocsRechunks(state.fileHashes.GetOr(map[]), docs);
  }

  /** Running the pass again on the saved state, over a snapshot in which no log grew
      and no document changed, stores nothing and saves the same offsets and
      fingerprints; only `last_sync` moves. */
  lemma SyncPassIdempotent(saved: Option<SyncState>, logs: seq<LogFile>, docs: seq<Document>, now: string,
    logs': seq<LogFile>, docs': seq<Document>, later: string)
    requires DistinctLogNames(logs) && DistinctDocNames(docs)
    requires SameLogSizes(logs, logs') && SameFingerprints(docs, docs')
    ensures var first := SyncPass(saved, logs, docs, now);
      var second := SyncPass(Some(first.state), logs', docs', later);
      && second.requests == []
      && second.sessionCount == 0 && second.memoryCount == 0
      && second.state == first.state.(lastSync := Some(later))
  {
    var state := LoadState(saved);
    SyncLogsIdempotent(state.lastPositions.GetOr(map[]), logs, logs');
    SyncDocsIdempotent(state.fileHashes.GetOr(map[]), docs, docs');
  }

  /** Without a state file, the first pass records each readable non-empty log's size
      and each document's fingerprint, and nothing else. */
  lemma FirstPassRecordsEverything(logs: seq<LogFile>, docs: seq<Document>, now: string)
    requires DistinctLogNames(logs) && DistinctDocNames(docs)
    ensures var r := SyncPass(None, logs, docs, now);
      && (forall f :: f in logs ==>
            Get(r.state.lastPositions.value, f.name) ==
              if !IsSkippedLog(f.name) && f.size > 0 then Some(f.size) else None)
      && (forall k :: k !in LogNames(logs) ==> k !in r.state.lastPositions.value)
      && (forall d :: d in docs ==> Get(r.state.fileHashes.value, d.name) == Some(d.mtime))
      && (forall k :: k !in DocNames(docs) ==> k !in r.state.fileHashes.value)
  {
    SyncLogsOffsets(map[], logs);
    SyncDocsFingerprints(map[], docs);
  }
}
