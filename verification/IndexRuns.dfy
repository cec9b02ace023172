/** What the index keeps over whole runs: arbitrary edits between events, arbitrary failures. */
module IndexRuns {
  import opened Wrappers
  import opened Text
  import opened Sections
  import opened Chunking
  import opened Documents
  import opened Cleaning
  import opened Indexer

  // ----- what the store says about a path, up to the value of ids -----

  datatype View = View(title: string, content: string, hash: string, chunks: seq<Payload>)

  function Look(s: Store, path: Path): Option<View> {
    if path !in s.docs then None
    else var d := s.docs[path]; Some(View(d.title, d.content, d.hash, ChunksIn(s.rows, d.id)))
  }

  /** The chunks that indexing stores when nothing fails: all of them, or none when the batch size is
      not positive. */
  function Whole(env: Env, path: Path, content: string): seq<Payload> {
    if env.cfg.batchSize > 0 then Expected(env, path, content) else []
  }

  /** What indexing a readable file from scratch, without failures, stores for it. */
  function Fresh(env: Env, files: map<Path, Bytes>, path: Path, content: string): View
    requires path in files
  {
    View(Title(content, env.stemTitle(path)), content, env.hash(files[path]), Whole(env, path, content))
  }

  ghost predicate HasDoc(s: Store, id: nat) {
    exists p :: p in s.docs && s.docs[p].id == id
  }

  /** Table keys: ids are unique and below the serial counter, and every chunk row has its document. */
  ghost predicate Keys(s: Store) {
    && (forall p :: p in s.docs ==> s.docs[p].id < s.nextId)
    && (forall p, q :: p in s.docs && q in s.docs && s.docs[p].id == s.docs[q].id ==> p == q)
    && (forall r :: r in s.rows ==> HasDoc(s, r.docId))
  }

  // ----- rows of one document among all rows -----

  lemma PayloadsAssociate(a: seq<Payload>, b: seq<Payload>, c: seq<Payload>)
    ensures (a + b) + c == a + (b + c)
  {
  }

  lemma {:induction false} ChunksConcat(a: seq<Row>, b: seq<Row>, id: nat)
    ensures ChunksIn(a + b, id) == ChunksIn(a, id) + ChunksIn(b, id)
  {
    if a == [] {
      assert a + b == b;
    } else {
      assert (a + b)[1..] == a[1..] + b && (a + b)[0] == a[0];
      ChunksConcat(a[1..], b, id);
      var first := if a[0].docId == id then [a[0].payload] else [];
      PayloadsAssociate(first, ChunksIn(a[1..], id), ChunksIn(b, id));
    }
  }

  /** Row i is the chunk of its document with as many chunks of that document before it. */
  lemma {:induction false} RowPosition(rows: seq<Row>, i: nat)
    requires i < |rows|
    ensures var id := rows[i].docId;
            var k := |ChunksIn(rows[..i], id)|;
            k < |ChunksIn(rows, id)| && ChunksIn(rows, id)[k] == rows[i].payload
  {
    var id := rows[i].docId;
    assert rows == rows[..i] + rows[i..];
    ChunksConcat(rows[..i], rows[i..], id);
  }

  lemma {:induction false} ChunksWithout(rows: seq<Row>, id: nat, j: nat)
    ensures ChunksIn(Without(rows, id), j) == if j == id then [] else ChunksIn(rows, j)
    ensures forall r :: r in Without(rows, id) ==> r in rows && r.docId != id
  {
    if rows != [] {
      ChunksWithout(rows[1..], id, j);
      var first := if rows[0].docId == id then [] else [rows[0]];
      ChunksConcat(first, Without(rows[1..], id), j);
    }
  }

  lemma {:induction false} ChunksOfNew(env: Env, id: nat, es: seq<Entry>, j: nat)
    ensures ChunksIn(RowsOf(env, id, es), j) == if j == id then PayloadsOf(env, es) else []
    ensures forall r :: r in RowsOf(env, id, es) ==> r.docId == id
  {
    hide PayloadOf;
    if es != [] {
      ChunksOfNew(env, id, es[1..], j);
      var rows := RowsOf(env, id, es);
      assert rows[0] == Row(id, PayloadOf(env, es[0])) && rows[1..] == RowsOf(env, id, es[1..]);
    }
  }

  lemma {:induction false} NoChunks(rows: seq<Row>, id: nat)
    requires forall r :: r in rows ==> r.docId != id
    ensures ChunksIn(rows, id) == []
  {
    if rows != [] {
      NoChunks(rows[1..], id);
    }
  }

  // ----- one call of process_document -----

  /** Whether the call replaces the document row: the file is readable and not blank, its hash
      differs from the stored one, and the upsert succeeds. */
  predicate Replaces(env: Env, f: Faults, s: Store, files: map<Path, Bytes>, path: Path) {
    && !UpToDate(env, s, files, path) && Indexable(env, files, path).Some? && f.upsert(s.clock)
  }

  /** How many of n chunks the call stores, starting at the given tick, and the tick it ends at. */
  function StoredCount(env: Env, f: Faults, n: nat, clock: nat): (r: (nat, nat))
    ensures r.0 <= n
  {
    if env.cfg.batchSize <= 0 then (0, clock) else InsertCount(f, n, clock)
  }

  /** The chunks stored by a call that replaces the row: those stored before if the delete failed,
      and otherwise the expected ones up to the first failure. */
  function NewChunks(env: Env, f: Faults, s: Store, path: Path, content: string): seq<Payload> {
    var expected := Expected(env, path, content);
    if !f.delete(s.clock + 1) then (if path in s.docs then ChunksIn(s.rows, s.docs[path].id) else [])
    else expected[..StoredCount(env, f, |expected|, s.clock + 2).0]
  }

  /** What the store says about the path after the call. */
  function NextView(env: Env, f: Faults, s: Store, files: map<Path, Bytes>, path: Path): Option<View> {
    if Replaces(env, f, s, files, path) then
      var content := Indexable(env, files, path).value;
      Some(Fresh(env, files, path, content).(chunks := NewChunks(env, f, s, path, content)))
    else Look(s, path)
  }

  lemma IdIsNew(s: Store, path: Path)
    requires Keys(s)
    ensures IdFor(s, path) <= s.nextId
    ensures forall q :: q in s.docs && q != path ==> s.docs[q].id != IdFor(s, path)
    ensures path !in s.docs ==> ChunksIn(s.rows, IdFor(s, path)) == []
  {
    if path !in s.docs {
      forall r | r in s.rows ensures r.docId != s.nextId { assert HasDoc(s, r.docId); }
      NoChunks(s.rows, s.nextId);
    }
  }

  lemma UpsertKeepsKeys(s: Store, path: Path, doc: Doc)
    requires Keys(s) && doc.id == IdFor(s, path)
    ensures Keys(Upserted(s, path, doc))
  {
    IdIsNew(s, path);
    var t := Upserted(s, path, doc);
    forall r | r in t.rows ensures HasDoc(t, r.docId) {
      assert HasDoc(s, r.docId);
      var p :| p in s.docs && s.docs[p].id == r.docId;
      assert p in t.docs && t.docs[p].id == r.docId;
    }
  }

  lemma UpsertLook(s: Store, path: Path, doc: Doc)
    requires Keys(s) && doc.id == IdFor(s, path)
    ensures var t := Upserted(s, path, doc);
            && (forall q :: q != path ==> Look(t, q) == Look(s, q))
            && Look(t, path) == Some(View(doc.title, doc.content, doc.hash,
                                          if path in s.docs then ChunksIn(s.rows, s.docs[path].id) else []))
  {
    IdIsNew(s, path);
  }

  /** Replacing the chunk rows of one document. */
  lemma RowsReplaced(env: Env, s: Store, path: Path, es: seq<Entry>, clock: nat)
    requires Keys(s) && path in s.docs
    ensures var id := s.docs[path].id;
            var t := s.(rows := Without(s.rows, id) + RowsOf(env, id, es), clock := clock);
            && Keys(t) && (forall q :: q != path ==> Look(t, q) == Look(s, q))
            && Look(t, path) == Some(Look(s, path).value.(chunks := PayloadsOf(env, es)))
  {
    var id := s.docs[path].id;
    var kept, added := Without(s.rows, id), RowsOf(env, id, es);
    var t := s.(rows := kept + added, clock := clock);
    forall j: nat
      ensures ChunksIn(kept + added, j) == if j == id then PayloadsOf(env, es) else ChunksIn(s.rows, j)
    {
      ChunksConcat(kept, added, j);
      ChunksWithout(s.rows, id, j);
      ChunksOfNew(env, id, es, j);
    }
    hide Without, RowsOf, PayloadsOf, ChunksIn;
    forall r | r in t.rows ensures HasDoc(t, r.docId) {
      ChunksWithout(s.rows, id, 0);
      ChunksOfNew(env, id, es, 0);
      if r in added {
        assert t.docs[path].id == r.docId;
      } else {
        assert HasDoc(s, r.docId);
      }
    }
  }

  lemma PayloadsOfPrefix(env: Env, es: seq<Entry>, m: nat)
    requires m <= |es|
    ensures PayloadsOf(env, es[..m]) == PayloadsOf(env, es)[..m]
  {
    hide PayloadOf;
  }

  lemma StoreShape(env: Env, f: Faults, s: Store, id: nat, es: seq<Entry>)
    ensures var (t, ok) := StoreChunks(env, f, Cleared(s, id), id, es);
            var (m, c) := StoredCount(env, f, |es|, s.clock + 1);
            && t == s.(rows := Without(s.rows, id) + RowsOf(env, id, es[..m]), clock := c)
            && (ok <==> env.cfg.batchSize < 0 || (env.cfg.batchSize > 0 && m == |es|))
  {
    hide Without, InsertCount, RowsOf;
  }

  /** The last part of the call: clear the old chunks and store the new ones. */
  lemma StoreEffect(env: Env, f: Faults, s: Store, path: Path, content: string)
    requires Keys(s) && path in s.docs
    ensures var id := s.docs[path].id;
            var (t, ok) := StoreChunks(env, f, Cleared(s, id), id, Entries(env.cfg, content, path));
            var expected := Expected(env, path, content);
            var m := StoredCount(env, f, |expected|, s.clock + 1).0;
            && Keys(t) && (forall q :: q != path ==> Look(t, q) == Look(s, q))
            && Look(t, path) == Some(Look(s, path).value.(chunks := expected[..m]))
            && (ok <==> env.cfg.batchSize < 0 || (env.cfg.batchSize > 0 && m == |expected|))
  {
    hide Chunks, Entries, Without, RowsOf, ChunksIn, StoredCount, StoreChunks, Keys;
    var id := s.docs[path].id;
    var es := Entries(env.cfg, content, path);
    var (m, c) := StoredCount(env, f, |es|, s.clock + 1);
    StoreShape(env, f, s, id, es);
    RowsReplaced(env, s, path, es[..m], c);
    PayloadsOfPrefix(env, es, m);
  }

  /** A call touches its own path only, and leaves the table keys intact whatever fails. */
  lemma {:induction false} ProcessEffect(env: Env, f: Faults, s: Store, files: map<Path, Bytes>, path: Path)
    requires Keys(s)
    ensures var (t, ok) := Process(env, f, s, files, path);
            && Keys(t)
            && (forall q :: q != path ==> Look(t, q) == Look(s, q))
            && Look(t, path) == NextView(env, f, s, files, path)
  {
    hide Title, Chunks, Entries, Without, ChunksIn, StoredCount, Strip, StoreChunks, Keys, Expected;
    if Replaces(env, f, s, files, path) {
      var content := Indexable(env, files, path).value;
      var doc := DocFor(env, IdFor(s, path), files, path, content);
      var s1 := Upserted(s, path, doc);
      UpsertKeepsKeys(s, path, doc);
      UpsertLook(s, path, doc);
      SameKeys(s1, s1.clock + 1);
      if f.delete(s1.clock) {
        StoreEffect(env, f, s1, path, content);
      }
    } else {
      SameKeys(s, s.clock + 1);
    }
  }

  lemma SameKeys(s: Store, clock: nat)
    requires Keys(s)
    ensures Keys(s.(clock := clock)) && forall q :: Look(s.(clock := clock), q) == Look(s, q)
  {
  }

  // ----- the store invariant -----

  ghost predicate SourceOf(env: Env, path: Path, v: View, bytes: Bytes) {
    && env.hash(bytes) == v.hash && env.decode(bytes) == Some(v.content)
    && Strip(Python, v.content) != "" && v.title == Title(v.content, env.stemTitle(path))
  }

  /** The row was made from one readable, non-blank state of the file. */
  ghost predicate Sourced(env: Env, path: Path, v: View) {
    exists bytes :: SourceOf(env, path, v, bytes)
  }

  ghost predicate Begins(env: Env, path: Path, chunks: seq<Payload>, bytes: Bytes) {
    env.decode(bytes).Some? && chunks <= Expected(env, path, env.decode(bytes).value)
  }

  /** The chunks are the first ones of the chunking of one state of the file, though not always of the one
      the row was made from. */
  ghost predicate Numbered(env: Env, path: Path, chunks: seq<Payload>) {
    exists bytes :: Begins(env, path, chunks, bytes)
  }

  /** What every call keeps, whatever fails. */
  ghost predicate Sound(env: Env, s: Store) {
    && Keys(s)
    && forall p :: Look(s, p).Some? ==> Sourced(env, p, Look(s, p).value) && Numbered(env, p, Look(s, p).value.chunks)
  }

  /** The chunks are the first ones of the chunking of the stored text. */
  ghost predicate Good(env: Env, path: Path, v: View) {
    Sourced(env, path, v) && v.chunks <= Expected(env, path, v.content)
  }

  ghost predicate Inv(env: Env, s: Store) {
    Keys(s) && forall p :: Look(s, p).Some? ==> Good(env, p, Look(s, p).value)
  }

  ghost predicate Complete(env: Env, s: Store) {
    forall p :: Look(s, p).Some? ==> Look(s, p).value.chunks == Whole(env, p, Look(s, p).value.content)
  }

  /** The one way to break the invariant: the new row is written, clearing the old chunks fails, and
      they are not the first chunks of the new text. */
  ghost predicate LeavesStaleChunks(env: Env, f: Faults, s: Store, files: map<Path, Bytes>, path: Path) {
    && Replaces(env, f, s, files, path) && !f.delete(s.clock + 1)
    && path in s.docs
    && !(ChunksIn(s.rows, s.docs[path].id) <= Expected(env, path, Indexable(env, files, path).value))
  }

  lemma FreshIsGood(env: Env, files: map<Path, Bytes>, path: Path, chunks: seq<Payload>)
    requires Indexable(env, files, path).Some?
    ensures var content := Indexable(env, files, path).value;
            Good(env, path, Fresh(env, files, path, content).(chunks := chunks))
            <==> chunks <= Expected(env, path, content)
  {
    hide Strip, Title, Expected;
    var content := Indexable(env, files, path).value;
    assert SourceOf(env, path, Fresh(env, files, path, content).(chunks := chunks), files[path]);
  }

  /** From a good store, one call of process_document, with any failures, gives a good store unless
      it leaves stale chunks; then it does not. */
  lemma {:induction false} InvariantKeptExactly(env: Env, f: Faults, s: Store, files: map<Path, Bytes>, path: Path)
    requires Inv(env, s)
    ensures Inv(env, Process(env, f, s, files, path).0) <==> !LeavesStaleChunks(env, f, s, files, path)
  {
    ProcessEffect(env, f, s, files, path);
    hide Process, Fresh, Expected, Good, Keys, StoredCount, Indexable, UpToDate;
    var t := Process(env, f, s, files, path).0;
    if Replaces(env, f, s, files, path) {
      var content := Indexable(env, files, path).value;
      FreshIsGood(env, files, path, NewChunks(env, f, s, path, content));
      assert Good(env, path, Look(t, path).value) <==> !LeavesStaleChunks(env, f, s, files, path);
    }
    forall p | p != path && Look(t, p).Some? ensures Good(env, p, Look(t, p).value) {
      assert Look(t, p) == Look(s, p);
    }
  }

  // ----- runs -----

  /** A run of the service: the watcher reports a file, all files are indexed, or both tables are
      emptied. Each event sees the files as they are at that moment. */
  datatype Event =
    | FileChanged(files: map<Path, Bytes>, path: Path)
    | IndexAll(files: map<Path, Bytes>, listing: seq<Path>)
    | Clear

  function Step(env: Env, f: Faults, s: Store, e: Event): Store {
    match e
    case FileChanged(files, path) => Process(env, f, s, files, path).0
    case IndexAll(files, listing) => ProcessAll(env, f, s, files, listing).store
    case Clear => Store(map[], [], s.nextId, s.clock + 2)
  }

  function Run(env: Env, f: Faults, events: seq<Event>): Store {
    if events == [] then EMPTY_STORE
    else Step(env, f, Run(env, f, events[..|events| - 1]), events[|events| - 1])
  }

  ghost predicate DeletesSucceed(f: Faults) {
    forall t :: f.delete(t)
  }

  ghost predicate UpsertsSucceed(f: Faults) {
    forall t :: f.upsert(t)
  }

  /** Every chunk gets its embedding within the attempts, and its insert succeeds. */
  ghost predicate ChunksSucceed(f: Faults) {
    (forall t :: Embed(f, t, MAX_RETRIES).0) && (forall t :: f.insert(t))
  }

  lemma {:induction false} ProcessAllKeepsInv(
    env: Env, f: Faults, s: Store, files: map<Path, Bytes>, listing: seq<Path>)
    requires Inv(env, s) && DeletesSucceed(f)
    ensures Inv(env, ProcessAll(env, f, s, files, listing).store)
    decreases |listing|
  {
    hide Process, Inv, UpToDate;
    if listing != [] {
      var path, before := listing[|listing| - 1], listing[..|listing| - 1];
      ProcessAllKeepsInv(env, f, s, files, before);
      InvariantKeptExactly(env, f, ProcessAll(env, f, s, files, before).store, files, path);
    }
  }

  lemma EmptyIsGood(env: Env, s: Store)
    requires s.docs == map[] && s.rows == []
    ensures Inv(env, s) && Complete(env, s)
  {
  }

  /** Over every run, with any edits between events and any failing upserts, embeddings and chunk
      inserts: the keys hold, each row was made from one state of its file, and its chunks are, in
      insertion order, the first ones of the chunking of the stored content. */
  lemma {:induction false} StoreInvariant(env: Env, f: Faults, events: seq<Event>)
    requires DeletesSucceed(f)
    ensures Inv(env, Run(env, f, events))
    decreases |events|
  {
    hide Process, ProcessAll, Inv, LeavesStaleChunks;
    if events == [] {
      EmptyIsGood(env, EMPTY_STORE);
    } else {
      var before := Run(env, f, events[..|events| - 1]);
      StoreInvariant(env, f, events[..|events| - 1]);
      match events[|events| - 1]
      case FileChanged(files, path) =>
        InvariantKeptExactly(env, f, before, files, path);
        NoStaleChunks(env, f, before, files, path);
      case IndexAll(files, listing) => ProcessAllKeepsInv(env, f, before, files, listing);
      case Clear => EmptyIsGood(env, Step(env, f, before, Clear));
    }
  }

  lemma NoStaleChunks(env: Env, f: Faults, s: Store, files: map<Path, Bytes>, path: Path)
    requires DeletesSucceed(f)
    ensures !LeavesStaleChunks(env, f, s, files, path)
  {
  }

  // ----- what every call keeps, whatever fails -----

  lemma NextViewIsSound(env: Env, f: Faults, s: Store, files: map<Path, Bytes>, path: Path)
    requires Sound(env, s)
    ensures var v := NextView(env, f, s, files, path);
            v.Some? ==> Sourced(env, path, v.value) && Numbered(env, path, v.value.chunks)
  {
    hide Strip, Title, Expected, Keys, ChunksIn, StoredCount, UpToDate;
    if Replaces(env, f, s, files, path) {
      var v := NextView(env, f, s, files, path).value;
      assert SourceOf(env, path, v, files[path]);
      if f.delete(s.clock + 1) || path !in s.docs {
        assert Begins(env, path, v.chunks, files[path]);
      } else {
        assert v.chunks == Look(s, path).value.chunks;
      }
    }
  }

  lemma {:induction false} ProcessKeepsSound(env: Env, f: Faults, s: Store, files: map<Path, Bytes>, path: Path)
    requires Sound(env, s)
    ensures Sound(env, Process(env, f, s, files, path).0)
  {
    hide Process, NextView, Sourced, Numbered, Keys, Look;
    ProcessEffect(env, f, s, files, path);
    NextViewIsSound(env, f, s, files, path);
    var t := Process(env, f, s, files, path).0;
    forall p | p != path && Look(t, p).Some?
      ensures Sourced(env, p, Look(t, p).value) && Numbered(env, p, Look(t, p).value.chunks)
    {
      assert Look(t, p) == Look(s, p);
    }
  }

  lemma {:induction false} ProcessAllKeepsSound(
    env: Env, f: Faults, s: Store, files: map<Path, Bytes>, listing: seq<Path>)
    requires Sound(env, s)
    ensures Sound(env, ProcessAll(env, f, s, files, listing).store)
    decreases |listing|
  {
    hide Process, Sound, UpToDate;
    if listing != [] {
      var path, before := listing[|listing| - 1], listing[..|listing| - 1];
      ProcessAllKeepsSound(env, f, s, files, before);
      ProcessKeepsSound(env, f, ProcessAll(env, f, s, files, before).store, files, path);
    }
  }

  lemma EmptyIsSound(env: Env, s: Store)
    requires s.docs == map[] && s.rows == []
    ensures Sound(env, s)
  {
  }

  // ----- where a row comes from -----

  /** The file at the path as the event finds it, if the event looks at it. */
  function Seen(e: Event, path: Path): Option<Bytes> {
    match e
    case FileChanged(files, p) => if p == path && path in files then Some(files[path]) else None
    case IndexAll(files, listing) => if path in listing && path in files then Some(files[path]) else None
    case Clear => None
  }

  ghost predicate RowFrom(env: Env, e: Event, path: Path, v: View) {
    Seen(e, path).Some? && SourceOf(env, path, v, Seen(e, path).value)
  }

  ghost predicate ChunksFrom(env: Env, e: Event, path: Path, chunks: seq<Payload>) {
    Seen(e, path).Some? && Begins(env, path, chunks, Seen(e, path).value)
  }

  /** The row was made by event i, from the file it saw, and the chunks by that event or an earlier one. */
  ghost predicate Origin(env: Env, events: seq<Event>, path: Path, v: View) {
    exists i, j :: 0 <= j <= i < |events| && RowFrom(env, events[i], path, v)
                   && ChunksFrom(env, events[j], path, v.chunks)
  }

  ghost predicate Traced(env: Env, events: seq<Event>, s: Store) {
    Keys(s) && forall p :: Look(s, p).Some? ==> Origin(env, events, p, Look(s, p).value)
  }

  lemma OriginExtends(env: Env, events: seq<Event>, e: Event, path: Path, v: View)
    requires Origin(env, events, path, v)
    ensures Origin(env, events + [e], path, v)
  {
    hide RowFrom, ChunksFrom;
    var i, j :| 0 <= j <= i < |events| && RowFrom(env, events[i], path, v)
                && ChunksFrom(env, events[j], path, v.chunks);
    assert (events + [e])[i] == events[i] && (events + [e])[j] == events[j];
  }

  lemma NextViewOrigin(env: Env, f: Faults, events: seq<Event>, s: Store, files: map<Path, Bytes>, path: Path)
    requires Traced(env, events, s) && events != []
    requires path in files ==> Seen(events[|events| - 1], path) == Some(files[path])
    ensures var v := NextView(env, f, s, files, path); v.Some? ==> Origin(env, events, path, v.value)
  {
    hide Strip, Title, Expected, Keys, ChunksIn, StoredCount, UpToDate, Seen;
    if Replaces(env, f, s, files, path) {
      var v, last := NextView(env, f, s, files, path).value, |events| - 1;
      assert SourceOf(env, path, v, files[path]) && RowFrom(env, events[last], path, v);
      if f.delete(s.clock + 1) || path !in s.docs {
        assert ChunksFrom(env, events[last], path, v.chunks);
      } else {
        var prior := Look(s, path).value;
        assert v.chunks == prior.chunks;
        var i, j :| 0 <= j <= i < |events| && RowFrom(env, events[i], path, prior)
                    && ChunksFrom(env, events[j], path, prior.chunks);
      }
    }
  }

  lemma {:induction false} ProcessKeepsTraced(
    env: Env, f: Faults, events: seq<Event>, s: Store, files: map<Path, Bytes>, path: Path)
    requires Traced(env, events, s) && events != []
    requires path in files ==> Seen(events[|events| - 1], path) == Some(files[path])
    ensures Traced(env, events, Process(env, f, s, files, path).0)
  {
    hide Process, NextView, Origin, Keys, Look, Seen;
    ProcessEffect(env, f, s, files, path);
    NextViewOrigin(env, f, events, s, files, path);
    var t := Process(env, f, s, files, path).0;
    forall p | p != path && Look(t, p).Some? ensures Origin(env, events, p, Look(t, p).value) {
      assert Look(t, p) == Look(s, p);
    }
  }

  lemma {:induction false} ProcessAllKeepsTraced(
    env: Env, f: Faults, events: seq<Event>, s: Store, files: map<Path, Bytes>, listing: seq<Path>)
    requires Traced(env, events, s) && events != []
    requires forall p :: p in listing && p in files ==> Seen(events[|events| - 1], p) == Some(files[p])
    ensures Traced(env, events, ProcessAll(env, f, s, files, listing).store)
    decreases |listing|
  {
    hide Process, Traced, UpToDate, Seen;
    if listing != [] {
      var path, before := listing[|listing| - 1], listing[..|listing| - 1];
      ProcessAllKeepsTraced(env, f, events, s, files, before);
      ProcessKeepsTraced(env, f, events, ProcessAll(env, f, s, files, before).store, files, path);
    }
  }

  /** After any run, whatever failed, each row was made by an event of the run from the file as that event
      saw it, and its chunks are the first ones of the text that this event or an earlier one saw. */
  lemma {:induction false} RowOrigin(env: Env, f: Faults, events: seq<Event>)
    ensures Traced(env, events, Run(env, f, events))
    decreases |events|
  {
    hide Process, ProcessAll, Origin, Keys, Look;
    if events == [] {
      NothingTraced(env, events, EMPTY_STORE);
    } else {
      var before, e := events[..|events| - 1], events[|events| - 1];
      var s := Run(env, f, before);
      RowOrigin(env, f, before);
      assert events == before + [e];
      forall p | Look(s, p).Some? ensures Origin(env, events, p, Look(s, p).value) {
        OriginExtends(env, before, e, p, Look(s, p).value);
      }
      match e
      case FileChanged(files, path) => ProcessKeepsTraced(env, f, events, s, files, path);
      case IndexAll(files, listing) => ProcessAllKeepsTraced(env, f, events, s, files, listing);
      case Clear => NothingTraced(env, events, Step(env, f, s, Clear));
    }
  }

  lemma NothingTraced(env: Env, events: seq<Event>, s: Store)
    requires s.docs == map[] && s.rows == []
    ensures Traced(env, events, s)
  {
  }

  /** The entry is one of the chunks of the file as the event saw it, numbered from 0, with their count. */
  ghost predicate EntryFrom(env: Env, e: Event, entry: Entry) {
    Seen(e, entry.path).Some? && env.decode(Seen(e, entry.path).value).Some? &&
    var cs := Chunks(env.cfg, env.decode(Seen(e, entry.path).value).value);
    entry.index < |cs| && entry.total == |cs| && entry.chunk == cs[entry.index]
  }

  lemma BegunEntry(env: Env, e: Event, path: Path, chunks: seq<Payload>, k: nat)
    requires ChunksFrom(env, e, path, chunks) && k < |chunks|
    ensures EntryFrom(env, e, chunks[k].entry) && chunks[k].entry.path == path
    ensures chunks[k].embedding == env.embed(Clean(chunks[k].entry.chunk.content))
  {
    hide Chunks, Clean, Seen;
    assert chunks[k] == Expected(env, path, env.decode(Seen(e, path).value).value)[k];
  }

  /** After any run, whatever failed, every chunk row belongs to the document at its path, holds one of the
      chunks of that file as an event of the run saw it, and has the embedding of that chunk's own text. */
  lemma {:induction false} StoredRow(env: Env, f: Faults, events: seq<Event>, i: nat)
    requires i < |Run(env, f, events).rows|
    ensures var s := Run(env, f, events);
            var entry := s.rows[i].payload.entry;
            && entry.path in s.docs && s.docs[entry.path].id == s.rows[i].docId
            && s.rows[i].payload.embedding == env.embed(Clean(entry.chunk.content))
            && exists j :: 0 <= j < |events| && EntryFrom(env, events[j], entry)
  {
    hide Run, Clean, RowFrom, ChunksFrom, EntryFrom, ChunksIn;
    var s := Run(env, f, events);
    RowOrigin(env, f, events);
    assert s.rows[i] in s.rows && HasDoc(s, s.rows[i].docId);
    var p :| p in s.docs && s.docs[p].id == s.rows[i].docId;
    var v := Look(s, p).value;
    assert Origin(env, events, p, v);
    var n, j :| 0 <= j <= n < |events| && RowFrom(env, events[n], p, v) && ChunksFrom(env, events[j], p, v.chunks);
    RowPosition(s.rows, i);
    BegunEntry(env, events[j], p, v.chunks, |ChunksIn(s.rows[..i], s.rows[i].docId)|);
  }

  // ----- every run, whatever fails -----

  lemma TracedIsSound(env: Env, events: seq<Event>, s: Store)
    requires Traced(env, events, s)
    ensures Sound(env, s)
  {
    hide Keys, Look, Begins, SourceOf, Seen;
    forall p | Look(s, p).Some?
      ensures Sourced(env, p, Look(s, p).value) && Numbered(env, p, Look(s, p).value.chunks)
    {
      assert Origin(env, events, p, Look(s, p).value);
    }
  }

  /** So every run gives a sound store. */
  lemma {:induction false} RunIsSound(env: Env, f: Faults, events: seq<Event>)
    ensures Sound(env, Run(env, f, events))
  {
    hide Run, Traced, Sound;
    RowOrigin(env, f, events);
    TracedIsSound(env, events, Run(env, f, events));
  }

  /** After any run, whatever failed, the chunk indexes of every document run 0, 1, .. without gaps or
      repeats, and every stored chunk carries its document's path. */
  lemma {:induction false} ChunkIndexesRun(env: Env, f: Faults, events: seq<Event>, path: Path)
    ensures var v := Look(Run(env, f, events), path);
            v.Some? ==> forall i :: 0 <= i < |v.value.chunks| ==>
                                      && v.value.chunks[i].entry.index == i
                                      && v.value.chunks[i].entry.path == path
                                      && |v.value.chunks| <= v.value.chunks[i].entry.total
  {
    RunIsSound(env, f, events);
    hide Run, Sound;
    if Look(Run(env, f, events), path).Some? {
      SoundIndexes(env, Run(env, f, events), path);
    }
  }

  lemma SoundIndexes(env: Env, s: Store, path: Path)
    requires Sound(env, s) && Look(s, path).Some?
    ensures var chunks := Look(s, path).value.chunks;
            forall i :: 0 <= i < |chunks| ==> && chunks[i].entry.index == i && chunks[i].entry.path == path
                                              && |chunks| <= chunks[i].entry.total
  {
    var chunks := Look(s, path).value.chunks;
    assert Numbered(env, path, chunks);
    hide Chunks, Sound, Look;
    var bytes :| Begins(env, path, chunks, bytes);
    assert chunks <= Expected(env, path, env.decode(bytes).value);
  }
}
