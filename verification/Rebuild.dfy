/** The incremental index against a rebuild from scratch, and repeated runs. */
module Rebuild {
  import opened Wrappers
  import opened Text
  import opened Sections
  import opened Chunking
  import opened Documents
  import opened Indexer
  import opened IndexRuns

  ghost predicate Injective(env: Env) {
    forall a: Bytes, b: Bytes :: env.hash(a) == env.hash(b) ==> a == b
  }

  // ----- success means indexed -----

  /** For a file that needed work, process_document answers true only when the store holds what indexing
      the file without failures stores; unless clearing the old chunks failed, it answers true exactly
      then, except that a batch size of 0 always answers false. That is the whole chunking for positive
      batch sizes only: with a negative one the answer is true and no chunk is stored. */
  lemma {:induction false} SuccessMeansIndexed(env: Env, f: Faults, s: Store, files: map<Path, Bytes>, path: Path)
    requires Keys(s)
    requires Indexable(env, files, path).Some? && !UpToDate(env, s, files, path)
    ensures var (t, ok) := Process(env, f, s, files, path);
            var content := Indexable(env, files, path).value;
            var whole := Look(t, path) == Some(Fresh(env, files, path, content));
            && (ok ==> whole)
            && (f.delete(s.clock + 1) ==> (ok <==> env.cfg.batchSize != 0 && whole))
            && (ok ==> (Look(t, path).value.chunks == Expected(env, path, content) <==> env.cfg.batchSize > 0))
  {
    hide Process, Chunks, NextView, Fresh, Indexable, Expected, StoredCount, Keys, UpToDate, Look;
    ProcessEffect(env, f, s, files, path);
    ProcessAnswer(env, f, s, files, path);
    NextViewIsWhole(env, f, s, files, path);
    FreshChunks(env, files, path, Indexable(env, files, path).value);
  }

  lemma FreshChunks(env: Env, files: map<Path, Bytes>, path: Path, content: string)
    requires path in files
    ensures Fresh(env, files, path, content).chunks == Expected(env, path, content) <==> env.cfg.batchSize > 0
  {
    ChunksNotEmpty(env.cfg, content);
    hide Chunks, Title;
  }

  lemma {:induction false} NextViewIsWhole(env: Env, f: Faults, s: Store, files: map<Path, Bytes>, path: Path)
    requires Indexable(env, files, path).Some? && !UpToDate(env, s, files, path)
    ensures var content := Indexable(env, files, path).value;
            var n := |Expected(env, path, content)|;
            var whole := NextView(env, f, s, files, path) == Some(Fresh(env, files, path, content));
            && (!f.upsert(s.clock) ==> !whole)
            && (f.upsert(s.clock) && f.delete(s.clock + 1) ==>
                  (whole <==> (env.cfg.batchSize > 0 ==> StoredCount(env, f, n, s.clock + 2).0 == n)))
  {
    hide Indexable, Expected, Title, ChunksIn, InsertCount, UpToDate, Look;
    OldRowDiffers(env, s, files, path);
    var expected := Expected(env, path, Indexable(env, files, path).value);
    PrefixIsWhole(expected, StoredCount(env, f, |expected|, s.clock + 2).0);
  }

  lemma OldRowDiffers(env: Env, s: Store, files: map<Path, Bytes>, path: Path)
    requires Indexable(env, files, path).Some? && !UpToDate(env, s, files, path)
    ensures Look(s, path) != Some(Fresh(env, files, path, Indexable(env, files, path).value))
  {
    hide Strip, Title, Expected, ChunksIn;
  }

  lemma PrefixIsWhole(ps: seq<Payload>, m: nat)
    requires m <= |ps|
    ensures ps[..m] == ps <==> m == |ps|
  {
  }

  lemma ProcessAnswer(env: Env, f: Faults, s: Store, files: map<Path, Bytes>, path: Path)
    requires Indexable(env, files, path).Some? && !UpToDate(env, s, files, path)
    ensures var n := |Expected(env, path, Indexable(env, files, path).value)|;
            Process(env, f, s, files, path).1 <==>
            && f.upsert(s.clock) && f.delete(s.clock + 1) && env.cfg.batchSize != 0
            && (env.cfg.batchSize > 0 ==> StoredCount(env, f, n, s.clock + 2).0 == n)
  {
    hide Chunks, Entries, Title, Strip, Indexable, UpToDate, StoreChunks, StoredCount;
    var content := Indexable(env, files, path).value;
    var id := IdFor(s, path);
    StoreShape(env, f, Upserted(s, path, DocFor(env, id, files, path, content)), id, Entries(env.cfg, content, path));
  }

  /** What process_document answers: true for a file that is marked as done; otherwise true exactly when the
      file can be indexed, both statements succeed, every chunk goes in, and the batch size is not 0. With a
      negative batch size no chunk is tried. */
  lemma {:induction false} AnswerExactly(env: Env, f: Faults, s: Store, files: map<Path, Bytes>, path: Path)
    ensures Process(env, f, s, files, path).1 <==>
            || (path in files && path in s.docs && s.docs[path].hash == env.hash(files[path]))
            || (&& Indexable(env, files, path).Some? && f.upsert(s.clock) && f.delete(s.clock + 1)
                && env.cfg.batchSize != 0
                && (env.cfg.batchSize > 0 ==>
                      AllGoIn(f, s.clock + 2, |Chunks(env.cfg, Indexable(env, files, path).value)|)))
  {
    hide Indexable, Chunks, ChunkGoesIn;
    if Indexable(env, files, path).None? {
      hide Strip;
    } else if !UpToDate(env, s, files, path) {
      hide Process, InsertCount;
      var n := |Expected(env, path, Indexable(env, files, path).value)|;
      ProcessAnswer(env, f, s, files, path);
      InsertExact(f, n, s.clock + 2, n);
    }
  }

  // ----- a run that breaks the store invariant -----

  /** The file is indexed completely; then it changes, its new row is written, and clearing the old
      chunks fails. If those are not the first chunks of the new text, the store is no longer good. */
  lemma {:induction false} FailedDeleteBreaks(env: Env, f: Faults, path: Path, b1: Bytes, b2: Bytes)
    requires env.cfg.batchSize > 0 && env.hash(b1) != env.hash(b2)
    requires Indexable(env, map[path := b1], path).Some? && Indexable(env, map[path := b2], path).Some?
    requires Process(env, f, EMPTY_STORE, map[path := b1], path).1
    requires var clock := Process(env, f, EMPTY_STORE, map[path := b1], path).0.clock;
             f.upsert(clock) && !f.delete(clock + 1)
    requires !(Expected(env, path, Indexable(env, map[path := b1], path).value)
               <= Expected(env, path, Indexable(env, map[path := b2], path).value))
    ensures var events := [FileChanged(map[path := b1], path), FileChanged(map[path := b2], path)];
            Inv(env, Run(env, f, events[..1])) && !Inv(env, Run(env, f, events))
  {
    hide Process, Run, Inv, LeavesStaleChunks, Indexable, Expected, Fresh, Look;
    var files1, files2 := map[path := b1], map[path := b2];
    var s := Process(env, f, EMPTY_STORE, files1, path).0;
    FirstIndexing(env, f, files1, path);
    StaleAfter(env, f, s, files1, files2, path);
    InvariantKeptExactly(env, f, s, files2, path);
    TwoSteps(env, f, FileChanged(files1, path), FileChanged(files2, path));
  }

  lemma FirstIndexing(env: Env, f: Faults, files: map<Path, Bytes>, path: Path)
    requires Indexable(env, files, path).Some? && Process(env, f, EMPTY_STORE, files, path).1
    ensures var s := Process(env, f, EMPTY_STORE, files, path).0;
            Inv(env, s) && Look(s, path) == Some(Fresh(env, files, path, Indexable(env, files, path).value))
  {
    EmptyIsGood(env, EMPTY_STORE);
    hide Process, Indexable, Expected, Fresh, Look, Good;
    InvariantKeptExactly(env, f, EMPTY_STORE, files, path);
    SuccessMeansIndexed(env, f, EMPTY_STORE, files, path);
  }

  lemma TwoSteps(env: Env, f: Faults, first: Event, second: Event)
    ensures Run(env, f, [first]) == Step(env, f, EMPTY_STORE, first)
    ensures Run(env, f, [first, second]) == Step(env, f, Step(env, f, EMPTY_STORE, first), second)
    ensures [first, second][..1] == [first]
  {
    hide Step;
    assert [first][..0] == [] && [first, second][..1] == [first];
    assert Run(env, f, []) == EMPTY_STORE;
  }

  lemma StaleAfter(env: Env, f: Faults, s: Store, files1: map<Path, Bytes>, files2: map<Path, Bytes>, path: Path)
    requires path in files1 && path in files2 && env.hash(files1[path]) != env.hash(files2[path])
    requires Indexable(env, files1, path).Some? && Indexable(env, files2, path).Some?
    requires Look(s, path) == Some(Fresh(env, files1, path, Indexable(env, files1, path).value))
    requires env.cfg.batchSize > 0 && f.upsert(s.clock) && !f.delete(s.clock + 1)
    requires !(Expected(env, path, Indexable(env, files1, path).value)
               <= Expected(env, path, Indexable(env, files2, path).value))
    ensures LeavesStaleChunks(env, f, s, files2, path)
  {
    hide Indexable, Expected, Title, ChunksIn;
  }

  // An instance: two one-line files, and a delete that fails the second time.

  function SmallEnv(): Env {
    Env(Config(512, 50, 10),
        b => if b == [] then "1" else "2", b => Some(if b == [] then "a" else "b"), p => p, s => [])
  }

  function SecondDeleteFails(): Faults {
    Faults(t => Answered, t => true, t => t <= 1, t => true)
  }

  lemma SmallFile(bytes: Bytes)
    ensures Indexable(SmallEnv(), map["d.md" := bytes], "d.md") == Some(if bytes == [] then "a" else "b")
  {
    StripFixed(Python, "a");
    StripFixed(Python, "b");
  }

  lemma SmallChunks()
    ensures !(Expected(SmallEnv(), "d.md", "a") <= Expected(SmallEnv(), "d.md", "b"))
  {
    var env := SmallEnv();
    StripFixed(Python, "a");
    StripFixed(Python, "b");
    hide Chunks, Strip;
    OneLineDocument(env.cfg, "a");
    OneLineDocument(env.cfg, "b");
    assert Expected(env, "d.md", "a")[0].entry.chunk.content == "a";
    assert Expected(env, "d.md", "b")[0].entry.chunk.content == "b";
  }

  lemma ClockMoves(env: Env, f: Faults, files: map<Path, Bytes>, path: Path)
    requires Indexable(env, files, path).Some? && f.upsert(0) && env.cfg.batchSize > 0
    ensures Process(env, f, EMPTY_STORE, files, path).0.clock >= 2
  {
    var content := Indexable(env, files, path).value;
    hide Indexable, Expected, Title, Entries, InsertCount, StoreChunks;
    StoreShape(env, f, Upserted(EMPTY_STORE, path, DocFor(env, 0, files, path, content)), 0,
               Entries(env.cfg, content, path));
  }

  lemma SmallFirst()
    ensures var (s, ok) := Process(SmallEnv(), SecondDeleteFails(), EMPTY_STORE, map["d.md" := []], "d.md");
            ok && s.clock >= 2
  {
    var env, f, files := SmallEnv(), SecondDeleteFails(), map["d.md" := []];
    SmallFile([]);
    var content := Indexable(env, files, "d.md").value;
    hide Process, Indexable, Expected, Title, InsertCount;
    InsertsAll(f, |Expected(env, "d.md", content)|, 2);
    ProcessAnswer(env, f, EMPTY_STORE, files, "d.md");
    ClockMoves(env, f, files, "d.md");
  }

  /** So a run that leaves a bad store exists. */
  lemma StaleRunExists()
    ensures var path: Path, b1: Bytes, b2: Bytes := "d.md", [], [0];
            var events := [FileChanged(map[path := b1], path), FileChanged(map[path := b2], path)];
            !Inv(SmallEnv(), Run(SmallEnv(), SecondDeleteFails(), events))
  {
    SmallFile([]);
    SmallFile([0]);
    SmallChunks();
    SmallFirst();
    hide Indexable, Expected, Process, Inv, Run;
    FailedDeleteBreaks(SmallEnv(), SecondDeleteFails(), "d.md", [], [0]);
  }

  // ----- nothing missing while nothing failed -----

  lemma {:induction false} InsertsAll(f: Faults, n: nat, clock: nat)
    requires ChunksSucceed(f)
    ensures InsertCount(f, n, clock).0 == n
    decreases n
  {
    hide Embed;
    if n > 0 {
      InsertsAll(f, n - 1, Embed(f, clock, MAX_RETRIES).1 + 1);
    }
  }

  lemma NextViewComplete(env: Env, f: Faults, s: Store, files: map<Path, Bytes>, path: Path)
    requires Complete(env, s)
    requires ChunksSucceed(f) && DeletesSucceed(f)
    ensures var v := NextView(env, f, s, files, path);
            v.Some? ==> v.value.chunks == Whole(env, path, v.value.content)
  {
    hide Chunks, Expected, Title, Look, Indexable, Embed, InsertCount, UpToDate;
    if Replaces(env, f, s, files, path) {
      var expected := Expected(env, path, Indexable(env, files, path).value);
      InsertsAll(f, |expected|, s.clock + 2);
      PrefixIsWhole(expected, |expected|);
    }
  }

  lemma {:induction false} ProcessKeepsComplete(env: Env, f: Faults, s: Store, files: map<Path, Bytes>, path: Path)
    requires Keys(s) && Complete(env, s)
    requires ChunksSucceed(f) && DeletesSucceed(f)
    ensures var t := Process(env, f, s, files, path).0; Keys(t) && Complete(env, t)
  {
    hide Process, NextView, Whole, Keys, Look, ChunksSucceed;
    ProcessEffect(env, f, s, files, path);
    NextViewComplete(env, f, s, files, path);
    var t := Process(env, f, s, files, path).0;
    forall p | p != path && Look(t, p).Some?
      ensures Look(t, p).value.chunks == Whole(env, p, Look(t, p).value.content)
    {
      assert Look(t, p) == Look(s, p);
    }
  }

  lemma {:induction false} ProcessAllKeepsComplete(
    env: Env, f: Faults, s: Store, files: map<Path, Bytes>, listing: seq<Path>)
    requires Keys(s) && Complete(env, s)
    requires ChunksSucceed(f) && DeletesSucceed(f)
    ensures var t := ProcessAll(env, f, s, files, listing).store; Keys(t) && Complete(env, t)
    decreases |listing|
  {
    hide Process, Keys, Complete, UpToDate, ChunksSucceed;
    if listing != [] {
      var path, before := listing[|listing| - 1], listing[..|listing| - 1];
      ProcessAllKeepsComplete(env, f, s, files, before);
      ProcessKeepsComplete(env, f, ProcessAll(env, f, s, files, before).store, files, path);
    }
  }

  lemma {:induction false} CompleteRun(env: Env, f: Faults, events: seq<Event>)
    requires ChunksSucceed(f) && DeletesSucceed(f)
    ensures var s := Run(env, f, events); Keys(s) && Complete(env, s)
    decreases |events|
  {
    hide Process, ProcessAll, Keys, Complete, ChunksSucceed;
    if events == [] {
      EmptyIsKeyed(env, EMPTY_STORE);
    } else {
      var before := Run(env, f, events[..|events| - 1]);
      CompleteRun(env, f, events[..|events| - 1]);
      match events[|events| - 1]
      case FileChanged(files, path) => ProcessKeepsComplete(env, f, before, files, path);
      case IndexAll(files, listing) => ProcessAllKeepsComplete(env, f, before, files, listing);
      case Clear => EmptyIsKeyed(env, Step(env, f, before, Clear));
    }
  }

  lemma EmptyIsKeyed(env: Env, s: Store)
    requires s.docs == map[] && s.rows == []
    ensures Keys(s) && Complete(env, s)
  {
  }

  // ----- marks: which files count as done -----

  lemma ProcessMarks(env: Env, f: Faults, s: Store, files: map<Path, Bytes>, path: Path)
    requires UpsertsSucceed(f)
    ensures var t := Process(env, f, s, files, path).0;
            && (Indexable(env, files, path).Some? ==> UpToDate(env, t, files, path))
            && (forall q :: UpToDate(env, s, files, q) ==> UpToDate(env, t, files, q))
  {
    hide Chunks, Entries, RowsOf, Without, InsertCount, Title, Strip;
  }

  lemma {:induction false} AllMarked(env: Env, f: Faults, s: Store, files: map<Path, Bytes>, listing: seq<Path>)
    requires UpsertsSucceed(f)
    ensures forall q :: q in listing && Indexable(env, files, q).Some? ==>
                          UpToDate(env, ProcessAll(env, f, s, files, listing).store, files, q)
    decreases |listing|
  {
    hide Process, UpToDate, Indexable;
    if listing != [] {
      var path, before := listing[|listing| - 1], listing[..|listing| - 1];
      AllMarked(env, f, s, files, before);
      ProcessMarks(env, f, ProcessAll(env, f, s, files, before).store, files, path);
      assert listing == before + [path];
    }
  }

  /** A run changes no row but those of listed, readable, non-blank files. */
  lemma {:induction false} OthersUntouched(env: Env, f: Faults, s: Store, files: map<Path, Bytes>, listing: seq<Path>)
    requires Keys(s)
    ensures var t := ProcessAll(env, f, s, files, listing).store;
            Keys(t) && forall q :: !(q in listing && Indexable(env, files, q).Some?) ==> Look(t, q) == Look(s, q)
    decreases |listing|
  {
    hide Process, UpToDate, Indexable, Keys, Look, Fresh, NewChunks;
    if listing != [] {
      var path, before := listing[|listing| - 1], listing[..|listing| - 1];
      OthersUntouched(env, f, s, files, before);
      ProcessEffect(env, f, ProcessAll(env, f, s, files, before).store, files, path);
      assert listing == before + [path];
    }
  }

  // ----- incremental equals rebuild -----

  /** In a sound store, a row whose hash is that of the file is the row of the file. */
  lemma RowMatchesFile(env: Env, s: Store, files: map<Path, Bytes>, path: Path)
    requires Sound(env, s) && Injective(env)
    requires UpToDate(env, s, files, path) && Indexable(env, files, path).Some?
    ensures Look(s, path).Some?
    ensures var v, content := Look(s, path).value, Indexable(env, files, path).value;
            v.content == content && v == Fresh(env, files, path, content).(chunks := v.chunks)
  {
    hide Strip, Title, Expected, ChunksIn, Keys, Numbered;
    var v := Look(s, path).value;
    assert Sourced(env, path, v);
    var bytes :| SourceOf(env, path, v, bytes);
    assert bytes == files[path];
  }

  /** With an injective hash, after a run over the files every listed, readable, non-blank file has the
      row that a rebuild would give it; and the first chunks of its chunking, if the store was good and
      clearing old chunks succeeded. */
  lemma {:induction false} RunIndexesFiles(env: Env, f: Faults, s: Store, files: map<Path, Bytes>, listing: seq<Path>)
    requires Sound(env, s) && Injective(env) && UpsertsSucceed(f)
    ensures var t := ProcessAll(env, f, s, files, listing).store;
            forall q :: q in listing && Indexable(env, files, q).Some? ==>
                          var content := Indexable(env, files, q).value;
                          && Look(t, q).Some?
                          && Look(t, q).value == Fresh(env, files, q, content).(chunks := Look(t, q).value.chunks)
                          && (Inv(env, s) && DeletesSucceed(f) ==> Look(t, q).value.chunks <= Expected(env, q, content))
  {
    var t := ProcessAll(env, f, s, files, listing).store;
    ProcessAllKeepsSound(env, f, s, files, listing);
    if Inv(env, s) && DeletesSucceed(f) { ProcessAllKeepsInv(env, f, s, files, listing); }
    AllMarked(env, f, s, files, listing);
    hide ProcessAll, Sound, Fresh, Indexable, UpToDate, Look, Injective, Keys, DeletesSucceed;
    forall q | q in listing && Indexable(env, files, q).Some?
      ensures var content := Indexable(env, files, q).value;
              && Look(t, q).Some?
              && Look(t, q).value == Fresh(env, files, q, content).(chunks := Look(t, q).value.chunks)
              && (Inv(env, s) && DeletesSucceed(f) ==> Look(t, q).value.chunks <= Expected(env, q, content))
    {
      RowMatchesFile(env, t, files, q);
      assert Inv(env, t) ==> Good(env, q, Look(t, q).value);
    }
  }

  ghost predicate FaultFree(f: Faults) {
    DeletesSucceed(f) && UpsertsSucceed(f) && ChunksSucceed(f)
  }

  /** A call without failures indexes a file that needs work. */
  lemma CallIndexes(env: Env, g: Faults, s: Store, files: map<Path, Bytes>, path: Path)
    requires Keys(s) && FaultFree(g) && Indexable(env, files, path).Some? && !UpToDate(env, s, files, path)
    ensures var content := Indexable(env, files, path).value;
            Look(Process(env, g, s, files, path).0, path) == Some(Fresh(env, files, path, content))
  {
    hide Process, Indexable, Expected, Look, Keys, UpToDate, Fresh, NextView, InsertCount;
    ProcessEffect(env, g, s, files, path);
    NextViewIsWhole(env, g, s, files, path);
    InsertsAll(g, |Expected(env, path, Indexable(env, files, path).value)|, s.clock + 2);
  }

  lemma UpToDateInView(env: Env, s: Store, files: map<Path, Bytes>, path: Path)
    ensures UpToDate(env, s, files, path) <==>
            path in files && Look(s, path).Some? && Look(s, path).value.hash == env.hash(files[path])
  {
  }

  /** A run without failures indexes the files that are not marked as done and leaves the others alone,
      whatever is in the store. */
  lemma {:induction false} FaultFreeRun(env: Env, g: Faults, s: Store, files: map<Path, Bytes>, listing: seq<Path>)
    requires Keys(s) && FaultFree(g)
    ensures var t := ProcessAll(env, g, s, files, listing).store;
            forall q :: q in listing && Indexable(env, files, q).Some? ==>
                          Look(t, q) == if UpToDate(env, s, files, q) then Look(s, q)
                                        else Some(Fresh(env, files, q, Indexable(env, files, q).value))
    decreases |listing|
  {
    hide Process, UpToDate, Indexable, Keys, Look, Fresh, FaultFree, NextView;
    if listing != [] {
      var path, before := listing[|listing| - 1], listing[..|listing| - 1];
      var t0 := ProcessAll(env, g, s, files, before).store;
      FaultFreeRun(env, g, s, files, before);
      OthersUntouched(env, g, s, files, before);
      ProcessEffect(env, g, t0, files, path);
      assert listing == before + [path];
      if Indexable(env, files, path).Some? {
        if path in before {
          assert UpToDate(env, t0, files, path) by { AllMarkedFaultFree(env, g, s, files, before, path); }
        } else {
          UpToDateInView(env, s, files, path);
          UpToDateInView(env, t0, files, path);
        }
        if !UpToDate(env, t0, files, path) { CallIndexes(env, g, t0, files, path); }
      }
    }
  }

  lemma AllMarkedFaultFree(env: Env, g: Faults, s: Store, files: map<Path, Bytes>, listing: seq<Path>, path: Path)
    requires FaultFree(g) && path in listing && Indexable(env, files, path).Some?
    ensures UpToDate(env, ProcessAll(env, g, s, files, listing).store, files, path)
  {
    hide UpToDate, Indexable, ProcessAll;
    AllMarked(env, g, s, files, listing);
  }

  /** The stored hash is that of the file, but the stored chunks are not those of a complete indexing. */
  predicate MarkedTooEarly(env: Env, s: Store, files: map<Path, Bytes>, path: Path)
    requires Indexable(env, files, path).Some?
  {
    && UpToDate(env, s, files, path)
    && Look(s, path).value.chunks != Whole(env, path, Indexable(env, files, path).value)
  }

  /** With an injective hash, after any history in which anything may have failed, a run without failures
      gives a listed, readable, non-blank file the view of a rebuild from scratch if and only if the file
      was not marked too early. Every other path keeps what it had, and the rebuild has nothing there. */
  lemma {:induction false} IncrementalExactly(
    env: Env, f: Faults, g: Faults, h: Faults, events: seq<Event>, files: map<Path, Bytes>, listing: seq<Path>)
    requires Injective(env) && FaultFree(g) && FaultFree(h)
    ensures var s := Run(env, f, events);
            var t, rebuilt := ProcessAll(env, g, s, files, listing).store,
                              ProcessAll(env, h, EMPTY_STORE, files, listing).store;
            forall q :: if q in listing && Indexable(env, files, q).Some?
                        then && Look(rebuilt, q) == Some(Fresh(env, files, q, Indexable(env, files, q).value))
                             && (Look(t, q) == Look(rebuilt, q) <==> !MarkedTooEarly(env, s, files, q))
                        else Look(t, q) == Look(s, q) && Look(rebuilt, q) == None
  {
    var s := Run(env, f, events);
    RunIsSound(env, f, events);
    assert Keys(s);
    EmptyIsSound(env, EMPTY_STORE);
    hide Run, Sound, Keys, Fresh, Indexable, Injective, ProcessAll, FaultFree, Look, UpToDate, Whole;
    FaultFreeRun(env, g, s, files, listing);
    FaultFreeRun(env, h, EMPTY_STORE, files, listing);
    OthersUntouched(env, g, s, files, listing);
    OthersUntouched(env, h, EMPTY_STORE, files, listing);
    forall q | q in listing && Indexable(env, files, q).Some?
      ensures !UpToDate(env, EMPTY_STORE, files, q)
      ensures UpToDate(env, s, files, q) ==>
                (Look(s, q) == Some(Fresh(env, files, q, Indexable(env, files, q).value))
                 <==> !MarkedTooEarly(env, s, files, q))
    {
      NothingUpToDate(env, files, q);
      if UpToDate(env, s, files, q) {
        RowMatchesFile(env, s, files, q);
        WholeIsFresh(env, files, q, Look(s, q).value);
      }
    }
    forall q ensures Look(EMPTY_STORE, q) == None { NothingUpToDate(env, files, q); }
  }

  lemma NothingUpToDate(env: Env, files: map<Path, Bytes>, path: Path)
    ensures !UpToDate(env, EMPTY_STORE, files, path) && Look(EMPTY_STORE, path) == None
  {
  }

  lemma WholeIsFresh(env: Env, files: map<Path, Bytes>, path: Path, v: View)
    requires Indexable(env, files, path).Some?
    requires v == Fresh(env, files, path, Indexable(env, files, path).value).(chunks := v.chunks)
    ensures v == Fresh(env, files, path, Indexable(env, files, path).value)
            <==> v.chunks == Whole(env, path, Indexable(env, files, path).value)
  {
    hide Indexable, Whole, Title;
  }

  /** So when nothing failed in the history either, the incremental index agrees with the rebuild on every
      listed, readable, non-blank file. */
  lemma {:induction false} IncrementalEqualsRebuild(
    env: Env, f: Faults, g: Faults, events: seq<Event>, files: map<Path, Bytes>, listing: seq<Path>)
    requires Injective(env) && FaultFree(f) && FaultFree(g)
    ensures var s := Run(env, f, events);
            var t, rebuilt := ProcessAll(env, f, s, files, listing).store,
                              ProcessAll(env, g, EMPTY_STORE, files, listing).store;
            forall q :: if q in listing && Indexable(env, files, q).Some?
                        then Look(t, q) == Look(rebuilt, q)
                             == Some(Fresh(env, files, q, Indexable(env, files, q).value))
                        else Look(t, q) == Look(s, q) && Look(rebuilt, q) == None
  {
    var s := Run(env, f, events);
    CompleteRun(env, f, events);
    RunIsSound(env, f, events);
    IncrementalExactly(env, f, f, g, events, files, listing);
    hide Run, Sound, Fresh, Indexable, ProcessAll, Look, UpToDate, Whole, Keys, Injective;
    forall q | q in listing && Indexable(env, files, q).Some? ensures !MarkedTooEarly(env, s, files, q) {
      if UpToDate(env, s, files, q) { RowMatchesFile(env, s, files, q); }
    }
  }

  /** When a call that has work to do marks the file too early: it writes the row, and then a chunk does not
      go in; or the old chunks are not cleared, and they are not those of a complete indexing. */
  lemma {:induction false} MarksTooEarly(env: Env, f: Faults, s: Store, files: map<Path, Bytes>, path: Path)
    requires Keys(s) && Indexable(env, files, path).Some? && !UpToDate(env, s, files, path)
    ensures var (t, ok) := Process(env, f, s, files, path);
            var oldChunks := if Look(s, path).Some? then Look(s, path).value.chunks else [];
            MarkedTooEarly(env, t, files, path) <==>
            && f.upsert(s.clock)
            && (if f.delete(s.clock + 1) then env.cfg.batchSize > 0 && !ok
                else oldChunks != Whole(env, path, Indexable(env, files, path).value))
  {
    hide Process, Indexable, Expected, StoredCount, Keys, UpToDate, Title, ChunksIn;
    var t := Process(env, f, s, files, path).0;
    ProcessEffect(env, f, s, files, path);
    ProcessAnswer(env, f, s, files, path);
    UpToDateInView(env, s, files, path);
    UpToDateInView(env, t, files, path);
    var expected := Expected(env, path, Indexable(env, files, path).value);
    PrefixIsWhole(expected, StoredCount(env, f, |expected|, s.clock + 2).0);
    NoneStored(env, f, |expected|, s.clock + 2);
  }

  lemma NoneStored(env: Env, f: Faults, n: nat, clock: nat)
    ensures env.cfg.batchSize <= 0 ==> StoredCount(env, f, n, clock).0 == 0
  {
  }

  // ----- a file marked too early stays so until it changes -----

  /** The event does not empty the tables, and finds the file with these bytes if it looks at it and can
      read it. */
  predicate FindsUnchanged(e: Event, path: Path, bytes: Bytes) {
    !e.Clear? && (path in e.files ==> e.files[path] == bytes)
  }

  ghost predicate HasHash(env: Env, s: Store, path: Path, bytes: Bytes) {
    Look(s, path).Some? && Look(s, path).value.hash == env.hash(bytes)
  }

  lemma ProcessKeepsRow(env: Env, f: Faults, s: Store, files: map<Path, Bytes>, p: Path, path: Path, bytes: Bytes)
    requires Keys(s) && HasHash(env, s, path, bytes) && (path in files ==> files[path] == bytes)
    ensures var t := Process(env, f, s, files, p).0; Keys(t) && Look(t, path) == Look(s, path)
  {
    hide Process, Keys, Look, Indexable, UpToDate, Fresh, NewChunks;
    ProcessEffect(env, f, s, files, p);
    UpToDateInView(env, s, files, path);
    assert path !in files ==> Indexable(env, files, path).None?;
  }

  lemma {:induction false} ProcessAllKeepsRow(
    env: Env, f: Faults, s: Store, files: map<Path, Bytes>, listing: seq<Path>, path: Path, bytes: Bytes)
    requires Keys(s) && HasHash(env, s, path, bytes) && (path in files ==> files[path] == bytes)
    ensures var t := ProcessAll(env, f, s, files, listing).store; Keys(t) && Look(t, path) == Look(s, path)
    decreases |listing|
  {
    hide Process, Keys, Look, UpToDate;
    if listing != [] {
      var p, before := listing[|listing| - 1], listing[..|listing| - 1];
      ProcessAllKeepsRow(env, f, s, files, before, path, bytes);
      ProcessKeepsRow(env, f, ProcessAll(env, f, s, files, before).store, files, p, path, bytes);
    }
  }

  /** While the file keeps its bytes and the tables are not emptied, no later run changes what the store
      says about it, complete or not, whatever fails and whatever happens to other files. */
  lemma {:induction false} KeptUntilChanged(
    env: Env, f: Faults, before: seq<Event>, more: seq<Event>, path: Path, bytes: Bytes)
    requires HasHash(env, Run(env, f, before), path, bytes)
    requires forall i :: 0 <= i < |more| ==> FindsUnchanged(more[i], path, bytes)
    ensures Look(Run(env, f, before + more), path) == Look(Run(env, f, before), path)
    decreases |more|
  {
    hide Look, Process, ProcessAll, Sound, Keys;
    if more == [] {
      assert before + more == before;
    } else {
      var n := |more| - 1;
      KeptUntilChanged(env, f, before, more[..n], path, bytes);
      var s, e := Run(env, f, before + more[..n]), more[n];
      assert (before + more)[..|before| + n] == before + more[..n];
      RunIsSound(env, f, before + more[..n]);
      assert Keys(s) by { SoundKeys(env, s); }
      match e
      case FileChanged(files, p) => ProcessKeepsRow(env, f, s, files, p, path, bytes);
      case IndexAll(files, listing) => ProcessAllKeepsRow(env, f, s, files, listing, path, bytes);
    }
  }

  lemma SoundKeys(env: Env, s: Store)
    requires Sound(env, s)
    ensures Keys(s)
  {
  }

  // ----- running again -----

  /** How many of the listed files are readable and not blank. */
  function CountIndexable(env: Env, files: map<Path, Bytes>, listing: seq<Path>): nat {
    if listing == [] then 0
    else CountIndexable(env, files, listing[..|listing| - 1])
         + if Indexable(env, files, listing[|listing| - 1]).Some? then 1 else 0
  }

  lemma MarkedIsSkipped(env: Env, f: Faults, s: Store, files: map<Path, Bytes>, path: Path)
    requires Indexable(env, files, path).Some? ==> UpToDate(env, s, files, path)
    ensures UpToDate(env, s, files, path) || Process(env, f, s, files, path) == (s, false)
  {
    hide Strip, Entries, StoreChunks;
  }

  lemma {:induction false} NothingLeft(env: Env, f: Faults, s: Store, files: map<Path, Bytes>, listing: seq<Path>)
    requires forall q :: q in listing && Indexable(env, files, q).Some? ==> UpToDate(env, s, files, q)
    ensures var r := ProcessAll(env, f, s, files, listing);
            r.store == s && r.processed == 0 && CountIndexable(env, files, listing) <= r.skipped
    ensures (forall q :: q in listing && UpToDate(env, s, files, q) ==> Indexable(env, files, q).Some?) ==>
              ProcessAll(env, f, s, files, listing).skipped == CountIndexable(env, files, listing)
    decreases |listing|
  {
    hide Process, UpToDate, Indexable;
    if listing != [] {
      var path, before := listing[|listing| - 1], listing[..|listing| - 1];
      NothingLeft(env, f, s, files, before);
      MarkedIsSkipped(env, f, s, files, path);
    }
  }

  /** Indexing unchanged files again, after a run in which upserts succeeded and anything else may
      have failed, changes neither table, issues no request or statement, processes nothing and
      skips every readable, non-blank file. No hash assumption is needed. */
  lemma {:induction false} RerunFixedPoint(env: Env, f: Faults, s: Store, files: map<Path, Bytes>, listing: seq<Path>)
    requires UpsertsSucceed(f)
    ensures var t := ProcessAll(env, f, s, files, listing).store;
            var again := ProcessAll(env, f, t, files, listing);
            && again.store == t && again.processed == 0
            && CountIndexable(env, files, listing) <= again.skipped
            && (forall q :: q in listing && Indexable(env, files, q).Some? ==> UpToDate(env, t, files, q))
  {
    var t := ProcessAll(env, f, s, files, listing).store;
    AllMarked(env, f, s, files, listing);
    NothingLeft(env, f, t, files, listing);
  }

  /** In a sound store, and so after any run, with an injective hash the skipped files are exactly those. */
  lemma {:induction false} RerunSkipsExactly(env: Env, f: Faults, s: Store, files: map<Path, Bytes>, listing: seq<Path>)
    requires UpsertsSucceed(f) && Injective(env) && Sound(env, s)
    ensures var t := ProcessAll(env, f, s, files, listing).store;
            ProcessAll(env, f, t, files, listing).skipped == CountIndexable(env, files, listing)
  {
    var t := ProcessAll(env, f, s, files, listing).store;
    AllMarked(env, f, s, files, listing);
    ProcessAllKeepsSound(env, f, s, files, listing);
    hide ProcessAll, Sound, Injective, UpToDate, Indexable;
    NothingLeft(env, f, t, files, listing);
    forall q | q in listing && UpToDate(env, t, files, q) ensures Indexable(env, files, q).Some? {
      DoneIsIndexable(env, t, files, q);
    }
  }

  lemma DoneIsIndexable(env: Env, s: Store, files: map<Path, Bytes>, path: Path)
    requires Sound(env, s) && Injective(env) && UpToDate(env, s, files, path)
    ensures Indexable(env, files, path).Some?
  {
    hide Strip, Title, Expected, ChunksIn, Keys, Numbered;
    var v := Look(s, path).value;
    assert Sourced(env, path, v);
    var bytes :| SourceOf(env, path, v, bytes);
    assert bytes == files[path];
  }
}
