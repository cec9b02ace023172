/** The incremental index: `process_document` and `process_all_documents` over the two tables. */
module Indexer {
  import opened Wrappers
  import opened Text
  import opened Sections
  import opened Chunking
  import opened Documents
  import opened Cleaning

  type Path = string
  type Bytes = seq<bv8>
  type Embedding = seq<real>

  /** What the processor calls and this model does not look into: MD5, UTF-8 decoding (which may
      fail), the title made from a file name, and the embedding model. */
  datatype Env = Env(
    cfg: Config,
    hash: Bytes -> string,
    decode: Bytes -> Option<string>,
    stemTitle: Path -> string,
    embed: string -> Embedding)

  /** One HTTP request to the embedding service. */
  datatype Attempt = Answered | RequestFailed | BadResponse

  /** The outcome of the request or statement that is issued at each tick of the store's clock. */
  datatype Faults = Faults(
    service: nat -> Attempt,
    upsert: nat -> bool,
    delete: nat -> bool,
    insert: nat -> bool)

  datatype Doc = Doc(id: nat, title: string, content: string, hash: string)

  datatype Payload = Payload(entry: Entry, embedding: Embedding)

  datatype Row = Row(docId: nat, payload: Payload)

  /** Tables documents (keyed by file path) and document_chunks (in insertion order), the serial
      counter of document ids, and the number of requests and statements issued so far. */
  datatype Store = Store(docs: map<Path, Doc>, rows: seq<Row>, nextId: nat, clock: nat)

  const EMPTY_STORE: Store := Store(map[], [], 0, 0)
  const MAX_RETRIES: nat := 3

  // ----- one document, as a function of the store -----

  /** Whether an embedding arrives within the remaining attempts, and the clock after them. */
  function Embed(f: Faults, clock: nat, tries: nat): (r: (bool, nat))
    ensures clock <= r.1
    decreases tries
  {
    if tries == 0 then (false, clock)
    else match f.service(clock)
      case Answered => (true, clock + 1)
      case RequestFailed => Embed(f, clock + 1, tries - 1)
      case BadResponse => (false, clock + 1)
  }

  /** The request at tick t is the first since `clock` that did not fail, and it is answered. */
  ghost predicate AnsweredAt(f: Faults, clock: nat, t: nat) {
    clock <= t && f.service(t) == Answered && forall j :: clock <= j < t ==> f.service(j) == RequestFailed
  }

  /** An embedding arrives exactly when one of the attempts is answered and all before it failed; a bad
      response ends the attempts at once. */
  lemma {:induction false} RetryExact(f: Faults, clock: nat, tries: nat)
    ensures var (arrived, end) := Embed(f, clock, tries);
            && end <= clock + tries
            && (arrived <==> exists t: nat :: t < clock + tries && AnsweredAt(f, clock, t))
            && (arrived ==> clock < end && AnsweredAt(f, clock, end - 1))
            && (forall j :: clock <= j < end - 1 ==> f.service(j) == RequestFailed)
    decreases tries
  {
    if tries > 0 {
      if f.service(clock) == RequestFailed {
        var next: nat := clock + 1;
        RetryExact(f, next, tries - 1);
        forall t: nat ensures AnsweredAt(f, clock, t) <==> AnsweredAt(f, next, t) {}
        if t: nat :| t < clock + tries && AnsweredAt(f, clock, t) {
          assert AnsweredAt(f, next, t);
        }
      } else if f.service(clock) == Answered {
        assert AnsweredAt(f, clock, clock);
      }
    }
  }

  /** How many of n chunks are stored before the first embedding or insert fails. */
  function InsertCount(f: Faults, n: nat, clock: nat): (r: (nat, nat))
    ensures r.0 <= n && clock <= r.1
  {
    if n == 0 then (0, clock)
    else
      var (arrived, c) := Embed(f, clock, MAX_RETRIES);
      if !arrived then (0, c)
      else if !f.insert(c) then (0, c + 1)
      else var (m, c') := InsertCount(f, n - 1, c + 1); (m + 1, c')
  }

  /** The tick at which chunk i is sent for its embedding when all chunks before it went in. */
  function ChunkTick(f: Faults, clock: nat, i: nat): nat {
    if i == 0 then clock else Embed(f, ChunkTick(f, clock, i - 1), MAX_RETRIES).1 + 1
  }

  /** The embedding of chunk i arrives, and the insert at the tick after it succeeds. */
  predicate ChunkGoesIn(f: Faults, clock: nat, i: nat) {
    var (arrived, c) := Embed(f, ChunkTick(f, clock, i), MAX_RETRIES);
    arrived && f.insert(c)
  }

  predicate AllGoIn(f: Faults, clock: nat, n: nat) {
    forall i :: 0 <= i < n ==> ChunkGoesIn(f, clock, i)
  }

  /** Three attempts: chunk i goes in exactly when one of the first three requests since its tick is the first
      that did not fail, it is answered, and the insert right after it succeeds; then the next chunk's turn
      comes at the tick after that. */
  lemma ThreeAttempts(f: Faults, clock: nat, i: nat)
    ensures var tick := ChunkTick(f, clock, i);
            && (ChunkGoesIn(f, clock, i) <==>
                  exists t: nat :: t < tick + 3 && AnsweredAt(f, tick, t) && f.insert(t + 1))
            && (forall t: nat :: t < tick + 3 && AnsweredAt(f, tick, t) ==> ChunkTick(f, clock, i + 1) == t + 2)
            && ChunkTick(f, clock, 0) == clock
  {
    var tick := ChunkTick(f, clock, i);
    RetryExact(f, tick, MAX_RETRIES);
    var (arrived, end) := Embed(f, tick, MAX_RETRIES);
    hide Embed;
    if arrived {
      var last: nat := end - 1;
      assert last < tick + 3 && AnsweredAt(f, tick, last);
      forall t: nat | t < tick + 3 && AnsweredAt(f, tick, t) ensures t == last {
        FirstAnswer(f, tick, last, t);
      }
    }
    hide AnsweredAt;
    assert ChunkTick(f, clock, i + 1) == end + 1;
  }

  lemma FirstAnswer(f: Faults, clock: nat, t: nat, u: nat)
    requires AnsweredAt(f, clock, t) && AnsweredAt(f, clock, u)
    ensures t == u
  {
  }

  lemma {:induction false} LaterChunk(f: Faults, clock: nat, i: nat)
    requires ChunkGoesIn(f, clock, 0)
    ensures var next := Embed(f, clock, MAX_RETRIES).1 + 1;
            ChunkTick(f, next, i) == ChunkTick(f, clock, i + 1)
            && (ChunkGoesIn(f, next, i) <==> ChunkGoesIn(f, clock, i + 1))
  {
    hide Embed;
    if i > 0 {
      LaterChunk(f, clock, i - 1);
    }
  }

  /** The chunks stored are those before the first whose embedding or insert fails: m of n chunks go in
      exactly when each of the first m does and, if m < n, chunk m does not. */
  lemma {:induction false} InsertExact(f: Faults, n: nat, clock: nat, m: nat)
    requires m <= n
    ensures InsertCount(f, n, clock).0 == m <==>
            (forall i :: 0 <= i < m ==> ChunkGoesIn(f, clock, i)) && (m < n ==> !ChunkGoesIn(f, clock, m))
    decreases n
  {
    hide Embed;
    assert ChunkTick(f, clock, 0) == clock;
    if n > 0 && ChunkGoesIn(f, clock, 0) {
      var next: nat := Embed(f, clock, MAX_RETRIES).1 + 1;
      if m > 0 {
        InsertExact(f, n - 1, next, m - 1);
        forall i: nat | i < m ensures ChunkGoesIn(f, next, i) <==> ChunkGoesIn(f, clock, i + 1) {
          LaterChunk(f, clock, i);
        }
        if forall i :: 0 <= i < m - 1 ==> ChunkGoesIn(f, next, i) {
          forall i | 0 <= i < m ensures ChunkGoesIn(f, clock, i) {
            if i > 0 { assert ChunkGoesIn(f, next, i - 1); }
          }
        }
        if forall i :: 0 <= i < m ==> ChunkGoesIn(f, clock, i) {
          forall i | 0 <= i < m - 1 ensures ChunkGoesIn(f, next, i) { assert ChunkGoesIn(f, clock, i + 1); }
        }
      }
    }
  }

  function PayloadOf(env: Env, entry: Entry): Payload {
    Payload(entry, env.embed(Clean(entry.chunk.content)))
  }

  function PayloadsOf(env: Env, es: seq<Entry>): (ps: seq<Payload>)
    ensures |ps| == |es| && forall i :: 0 <= i < |es| ==> ps[i] == PayloadOf(env, es[i])
  {
    if es == [] then [] else [PayloadOf(env, es[0])] + PayloadsOf(env, es[1..])
  }

  /** The chunks a complete indexing of the content stores. */
  function Expected(env: Env, path: Path, content: string): seq<Payload> {
    PayloadsOf(env, Entries(env.cfg, content, path))
  }

  function RowsOf(env: Env, id: nat, es: seq<Entry>): (rows: seq<Row>)
    ensures |rows| == |es|
  {
    if es == [] then [] else [Row(id, PayloadOf(env, es[0]))] + RowsOf(env, id, es[1..])
  }

  lemma {:induction false} RowsOfConcat(env: Env, id: nat, a: seq<Entry>, b: seq<Entry>)
    ensures RowsOf(env, id, a + b) == RowsOf(env, id, a) + RowsOf(env, id, b)
  {
    hide PayloadOf;
    if a == [] {
      assert a + b == b;
    } else {
      assert (a + b)[1..] == a[1..] + b;
      RowsOfConcat(env, id, a[1..], b);
    }
  }

  lemma {:induction false} RowsOfNext(env: Env, id: nat, es: seq<Entry>, i: nat)
    requires i < |es|
    ensures RowsOf(env, id, es[..i + 1]) == RowsOf(env, id, es[..i]) + [Row(id, PayloadOf(env, es[i]))]
  {
    hide PayloadOf;
    assert es[..i + 1] == es[..i] + [es[i]];
    RowsOfConcat(env, id, es[..i], [es[i]]);
  }

  /** `DELETE FROM document_chunks WHERE document_id = id`. */
  function Without(rows: seq<Row>, id: nat): seq<Row> {
    if rows == [] then []
    else (if rows[0].docId == id then [] else [rows[0]]) + Without(rows[1..], id)
  }

  /** The chunks of a document in insertion order. */
  function ChunksIn(rows: seq<Row>, id: nat): seq<Payload> {
    if rows == [] then []
    else (if rows[0].docId == id then [rows[0].payload] else []) + ChunksIn(rows[1..], id)
  }

  predicate UpToDate(env: Env, s: Store, files: map<Path, Bytes>, path: Path) {
    path in files && path in s.docs && s.docs[path].hash == env.hash(files[path])
  }

  /** The text that would be indexed: none for a file that cannot be read, decoded, or is blank. */
  function Indexable(env: Env, files: map<Path, Bytes>, path: Path): (content: Option<string>)
    ensures content.Some? ==> path in files && env.decode(files[path]) == content
  {
    if path !in files then None
    else match env.decode(files[path])
      case None => None
      case Some(content) => if Strip(Python, content) == "" then None else Some(content)
  }

  /** Written out: the file is there, decodes to this text, and the text is not all whitespace. */
  lemma IndexableMeaning(env: Env, files: map<Path, Bytes>, path: Path, content: string)
    ensures Indexable(env, files, path) == Some(content) <==>
            path in files && env.decode(files[path]) == Some(content) && !AllSpace(Python, content)
  {
    BlankIff(Python, content);
    hide Strip, AllSpace;
  }

  function DocFor(env: Env, id: nat, files: map<Path, Bytes>, path: Path, content: string): Doc
    requires path in files
  {
    Doc(id, Title(content, env.stemTitle(path)), content, env.hash(files[path]))
  }

  function IdFor(s: Store, path: Path): nat {
    if path in s.docs then s.docs[path].id else s.nextId
  }

  /** A negative batch size gives an empty range of batches and a zero one an error, so neither
      stores a chunk. */
  function StoreChunks(env: Env, f: Faults, s: Store, id: nat, es: seq<Entry>): (Store, bool) {
    if env.cfg.batchSize <= 0 then (s, env.cfg.batchSize < 0)
    else
      var (m, c) := InsertCount(f, |es|, s.clock);
      (s.(rows := s.rows + RowsOf(env, id, es[..m]), clock := c), m == |es|)
  }

  function Upserted(s: Store, path: Path, doc: Doc): Store {
    Store(s.docs[path := doc], s.rows, s.nextId + 1, s.clock + 1)
  }

  function Cleared(s: Store, id: nat): Store {
    s.(rows := Without(s.rows, id), clock := s.clock + 1)
  }

  function Process(env: Env, f: Faults, s: Store, files: map<Path, Bytes>, path: Path): (Store, bool) {
    if UpToDate(env, s, files, path) then (s, true)
    else match Indexable(env, files, path)
      case None => (s, false)
      case Some(content) =>
        if !f.upsert(s.clock) then (s.(clock := s.clock + 1), false)
        else
          var id := IdFor(s, path);
          var s1 := Upserted(s, path, DocFor(env, id, files, path, content));
          if !f.delete(s1.clock) then (s1.(clock := s1.clock + 1), false)
          else StoreChunks(env, f, Cleared(s1, id), id, Entries(env.cfg, content, path))
  }

  /** The documents table after a call: one row is written exactly when there is work to do and the upsert
      succeeds; it keeps its id, or takes the next one, which is used up in either case. */
  lemma DocumentsExact(env: Env, f: Faults, s: Store, files: map<Path, Bytes>, path: Path)
    ensures var t := Process(env, f, s, files, path).0;
            var content := Indexable(env, files, path);
            if content.Some? && !UpToDate(env, s, files, path) && f.upsert(s.clock) then
              && t.docs == s.docs[path := Doc(if path in s.docs then s.docs[path].id else s.nextId,
                                              Title(content.value, env.stemTitle(path)), content.value,
                                              env.hash(files[path]))]
              && t.nextId == s.nextId + 1
            else t.docs == s.docs && t.nextId == s.nextId && t.rows == s.rows
  {
    hide Indexable, Title, Entries, InsertCount, Without;
  }

  datatype Tally = Tally(store: Store, processed: nat, skipped: nat, failed: nat)

  function ProcessAll(env: Env, f: Faults, s: Store, files: map<Path, Bytes>, listing: seq<Path>): (r: Tally)
    ensures r.processed + r.skipped + r.failed == |listing|
  {
    if listing == [] then Tally(s, 0, 0, 0)
    else
      var path := listing[|listing| - 1];
      var t := ProcessAll(env, f, s, files, listing[..|listing| - 1]);
      if UpToDate(env, t.store, files, path) then t.(skipped := t.skipped + 1)
      else
        var (s', ok) := Process(env, f, t.store, files, path);
        if ok then t.(store := s', processed := t.processed + 1) else t.(store := s', failed := t.failed + 1)
  }

  // ----- the processor -----

  class DocumentProcessor {
    const env: Env
    const faults: Faults
    var docs: map<Path, Doc>
    var rows: seq<Row>
    var nextId: nat
    var clock: nat

    /** Connects to a database that already holds `found`. */
    constructor (env: Env, faults: Faults, found: Store)
      ensures this.env == env && this.faults == faults && State() == found
    {
      this.env, this.faults := env, faults;
      docs, rows, nextId, clock := found.docs, found.rows, found.nextId, found.clock;
    }

    function State(): Store
      reads this
    {
      Store(docs, rows, nextId, clock)
    }

    method GenerateEmbedding(text: string) returns (r: Option<Embedding>)
      modifies `clock
      ensures (r.Some?, clock) == Embed(faults, old(clock), 3)
      ensures r.Some? ==> r.value == env.embed(Clean(text))
    {
      var cleaned := Clean(text);
      for attempt := 0 to MAX_RETRIES
        invariant Embed(faults, clock, MAX_RETRIES - attempt) == Embed(faults, old(clock), MAX_RETRIES)
      {
        var response := faults.service(clock);
        clock := clock + 1;
        match response
        case Answered => return Some(env.embed(cleaned));
        case RequestFailed => if attempt == MAX_RETRIES - 1 { return None; }
        case BadResponse => return None;
      }
      return None;
    }

    method ProcessChunkBatch(documentId: nat, batch: seq<Entry>) returns (ok: bool)
      modifies `rows, `clock
      ensures var (m, c) := InsertCount(faults, |batch|, old(clock));
              && clock == c && ok == (m == |batch|)
              && rows == old(rows) + RowsOf(env, documentId, batch[..m])
    {
      hide RowsOf, Clean, Embed;
      NoRows(env, documentId);
      for i := 0 to |batch|
        invariant InsertCount(faults, |batch|, old(clock)) ==
                  (i + InsertCount(faults, |batch| - i, clock).0, InsertCount(faults, |batch| - i, clock).1)
        invariant rows == old(rows) + RowsOf(env, documentId, batch[..i])
      {
        var embedding := GenerateEmbedding(batch[i].chunk.content);
        if embedding.None? {
          return false;
        }
        var inserted := faults.insert(clock);
        clock := clock + 1;
        if !inserted {
          return false;
        }
        RowsOfNext(env, documentId, batch, i);
        rows := rows + [Row(documentId, Payload(batch[i], embedding.value))];
      }
      return true;
    }

    /** None when the file cannot be read. */
    method IsFileProcessed(files: map<Path, Bytes>, path: Path) returns (r: Option<bool>)
      ensures r == if path in files then Some(UpToDate(env, State(), files, path)) else None
      ensures r == Some(true) <==> path in files && path in docs && docs[path].hash == env.hash(files[path])
    {
      if path !in files {
        return None;
      }
      var currentHash := env.hash(files[path]);
      if path in docs && docs[path].hash == currentHash {
        return Some(true);
      }
      return Some(false);
    }

    method ProcessDocument(files: map<Path, Bytes>, path: Path) returns (ok: bool)
      modifies this
      ensures (State(), ok) == Process(env, faults, old(State()), files, path)
    {
      hide Split, Strip, Title, Chunks, Entries, StoreChunks, Without;
      var upToDate := IsFileProcessed(files, path);
      if upToDate.None? {
        return false;
      }
      if upToDate.value {
        return true;
      }
      var decoded := env.decode(files[path]);
      if decoded.None? {
        return false;
      }
      var content := decoded.value;
      if Strip(Python, content) == "" {
        return false;
      }
      assert Indexable(env, files, path) == Some(content);
      var title := ExtractTitle(content, env.stemTitle(path));
      var fileHash := env.hash(files[path]);
      var upserted := faults.upsert(clock);
      clock := clock + 1;
      if !upserted {
        return false;
      }
      var documentId := if path in docs then docs[path].id else nextId;
      docs, nextId := docs[path := Doc(documentId, title, content, fileHash)], nextId + 1;
      assert State() == Upserted(old(State()), path, DocFor(env, documentId, files, path, content));
      var deleted := faults.delete(clock);
      clock := clock + 1;
      if !deleted {
        return false;
      }
      rows := Without(rows, documentId);
      var chunks := ChunkMarkdown(env.cfg, content, path);
      ok := ProcessBatches(documentId, chunks);
    }

    /** `for i in range(0, len(chunks), batch_size)`: the batches have no effect on the result. */
    method ProcessBatches(documentId: nat, chunks: seq<Entry>) returns (ok: bool)
      modifies `rows, `clock
      ensures (State(), ok) == StoreChunks(env, faults, old(State()), documentId, chunks)
    {
      hide RowsOf, InsertCount;
      if env.cfg.batchSize <= 0 {
        return env.cfg.batchSize < 0;
      }
      NoRows(env, documentId);
      NoInserts(faults);
      var i := 0;
      while i < |chunks|
        invariant 0 <= i <= |chunks|
        invariant InsertCount(faults, |chunks|, old(clock)) ==
                  (i + InsertCount(faults, |chunks| - i, clock).0, InsertCount(faults, |chunks| - i, clock).1)
        invariant rows == old(rows) + RowsOf(env, documentId, chunks[..i])
      {
        var end := if i + env.cfg.batchSize < |chunks| then i + env.cfg.batchSize else |chunks|;
        ghost var m := InsertCount(faults, end - i, clock).0;
        InsertInTwo(faults, end - i, |chunks| - end, clock);
        assert chunks[..i + m] == chunks[..i] + chunks[i..end][..m];
        RowsOfConcat(env, documentId, chunks[..i], chunks[i..end][..m]);
        var done := ProcessChunkBatch(documentId, chunks[i..end]);
        assert (end - i) + (|chunks| - end) == |chunks| - i;
        assert rows == old(rows) + RowsOf(env, documentId, chunks[..i + m]);
        if !done {
          assert InsertCount(faults, |chunks|, old(clock)) == (i + m, clock);
          return false;
        }
        i := end;
      }
      assert chunks[..|chunks|] == chunks;
      return true;
    }

    /** Every file counts once, as processed, skipped or failed. */
    method ProcessAllDocuments(files: map<Path, Bytes>, listing: seq<Path>)
      returns (processed: nat, skipped: nat, failed: nat)
      modifies this
      ensures Tally(State(), processed, skipped, failed) == ProcessAll(env, faults, old(State()), files, listing)
    {
      hide Process, UpToDate;
      processed, skipped, failed := 0, 0, 0;
      for i := 0 to |listing|
        invariant Tally(State(), processed, skipped, failed) ==
                  ProcessAll(env, faults, old(State()), files, listing[..i])
      {
        assert listing[..i + 1][..i] == listing[..i];
        var path := listing[i];
        Unreadable(env, faults, State(), files, path);
        var upToDate := IsFileProcessed(files, path);
        if upToDate.None? {
          failed := failed + 1;
        } else if upToDate.value {
          skipped := skipped + 1;
        } else {
          var ok := ProcessDocument(files, path);
          if ok { processed := processed + 1; } else { failed := failed + 1; }
        }
      }
      assert listing[..|listing|] == listing;
    }
  }

  lemma NoRows(env: Env, id: nat)
    ensures RowsOf(env, id, []) == []
  {
  }

  lemma NoInserts(f: Faults)
    ensures forall clock: nat :: InsertCount(f, 0, clock) == (0, clock)
  {
  }

  lemma Unreadable(env: Env, f: Faults, s: Store, files: map<Path, Bytes>, path: Path)
    ensures path !in files ==> !UpToDate(env, s, files, path) && Process(env, f, s, files, path) == (s, false)
  {
  }

  /** Inserting a batch and, if it all went in, the rest is inserting everything. */
  lemma {:induction false} InsertInTwo(f: Faults, a: nat, b: nat, clock: nat)
    ensures var (m, c) := InsertCount(f, a, clock);
            InsertCount(f, a + b, clock) ==
            if m < a then (m, c) else (a + InsertCount(f, b, c).0, InsertCount(f, b, c).1)
  {
    hide Embed;
    if a > 0 {
      var (arrived, c) := Embed(f, clock, MAX_RETRIES);
      InsertInTwo(f, a - 1, b, c + 1);
    }
  }
}
