/** Hybrid search over the chunks that the indexer stored. */
module StoredSearch {
  import opened Chunking
  import opened Cleaning
  import opened Indexer
  import opened IndexRuns
  import opened Search

  // ----- no two stored chunks show the same columns -----

  lemma PositionsDiffer(rows: seq<Row>, i: nat, j: nat)
    requires i < j < |rows| && rows[i].docId == rows[j].docId
    ensures |ChunksIn(rows[..i], rows[i].docId)| < |ChunksIn(rows[..j], rows[i].docId)|
  {
    assert rows[..j][..i] == rows[..i];
    RowPosition(rows[..j], i);
  }

  lemma EntryOfRow(env: Env, s: Store, i: nat)
    requires Sound(env, s) && i < |s.rows|
    ensures s.rows[i].payload.entry.index == |ChunksIn(s.rows[..i], s.rows[i].docId)|
    ensures exists p :: p in s.docs && s.docs[p].id == s.rows[i].docId && s.rows[i].payload.entry.path == p
  {
    var row := s.rows[i];
    assert row in s.rows && HasDoc(s, row.docId);
    var p :| p in s.docs && s.docs[p].id == row.docId;
    RowPosition(s.rows, i);
    assert Look(s, p).Some?;
    SoundIndexes(env, s, p);
  }

  /** In a sound store, and so after any run, no two rows of the chunk table hold the same file path and chunk index. */
  lemma PathAndIndexUnique(env: Env, s: Store, i: nat, j: nat)
    requires Sound(env, s) && i < j < |s.rows|
    ensures var a, b := s.rows[i].payload.entry, s.rows[j].payload.entry;
            a.path != b.path || a.index != b.index
  {
    EntryOfRow(env, s, i);
    EntryOfRow(env, s, j);
    if s.rows[i].docId == s.rows[j].docId {
      PositionsDiffer(s.rows, i, j);
    }
  }

  // ----- the answer over the index -----

  /** The columns of the API's answer, besides the score. */
  datatype Shown = Shown(path: Path, title: string, entry: Entry) | NoChunk

  ghost function Owner(s: Store, id: nat): Path {
    if HasDoc(s, id) then var p :| p in s.docs && s.docs[p].id == id; p else ""
  }

  /** `FROM document_chunks dc JOIN documents d`: row i with the columns of its document. */
  ghost function ShownRow(s: Store, i: nat): Shown {
    if i >= |s.rows| then NoChunk
    else
      var row := s.rows[i];
      var p := Owner(s, row.docId);
      if p in s.docs then Shown(p, s.docs[p].title, row.payload.entry) else NoChunk
  }

  ghost function Columns(s: Store): nat -> Shown {
    (i: nat) => ShownRow(s, i)
  }

  function RowIds(s: Store): set<nat> {
    Below(|s.rows|)
  }

  lemma ColumnsTellRowsApart(env: Env, s: Store)
    requires Sound(env, s)
    ensures InjectiveOn(Columns(s), RowIds(s))
  {
    hide Sound, ShownRow;
    forall a, b | a in RowIds(s) && b in RowIds(s) && Columns(s)(a) == Columns(s)(b) ensures a == b {
      ShownEntry(env, s, a);
      ShownEntry(env, s, b);
      if a < b {
        PathAndIndexUnique(env, s, a, b);
      } else if b < a {
        PathAndIndexUnique(env, s, b, a);
      }
    }
  }

  lemma ShownEntry(env: Env, s: Store, i: nat)
    requires Sound(env, s) && i < |s.rows|
    ensures ShownRow(s, i).Shown? && ShownRow(s, i).entry == s.rows[i].payload.entry
  {
  }

  /** Written out: the columns of row c are its own path and entry and the title of the document at that path,
      which is the one that the row belongs to. */
  ghost predicate IsShown(s: Store, c: nat, info: Shown) {
    c < |s.rows| && info.Shown? &&
    var entry := s.rows[c].payload.entry;
    && entry.path in s.docs && s.docs[entry.path].id == s.rows[c].docId
    && info.path == entry.path && info.title == s.docs[entry.path].title && info.entry == entry
  }

  lemma ColumnsShown(env: Env, s: Store, c: nat)
    requires Sound(env, s) && c < |s.rows|
    ensures c in RowIds(s) && IsShown(s, c, Columns(s)(c))
  {
    EntryOfRow(env, s, c);
  }

  /** The score of a candidate: the weighted parts of the lists it is on. */
  ghost predicate HasScore(q: Query, S: seq<nat>, F: seq<nat>, c: nat, score: real) {
    score == (if c in S then q.similarity(c) * q.semanticWeight else 0.0)
             + (if c in F then q.rank(c) * q.fulltextWeight else 0.0)
  }

  lemma CandidateIs<T>(q: Query, info: nat -> T, S: seq<nat>, F: seq<nat>, c: nat)
    ensures HasScore(q, S, F, c, CandidateHit(q, info, S, F, c).score) && CandidateHit(q, info, S, F, c).info == info(c)
  {
  }

  /** The row shows a chunk of one of the two lists, with the score of the lists it is on. */
  ghost predicate ShowsCandidate(s: Store, q: Query, S: seq<nat>, F: seq<nat>, hit: Hit<Shown>) {
    exists c :: (c in S || c in F) && IsShown(s, c, hit.info) && HasScore(q, S, F, c, hit.score)
  }

  /** The chunk is shown, or its score is at most that of every row. */
  ghost predicate Accounted(s: Store, q: Query, S: seq<nat>, F: seq<nat>, out: seq<Hit<Shown>>, c: nat) {
    || (exists i :: 0 <= i < |out| && IsShown(s, c, out[i].info))
    || (forall i, score :: 0 <= i < |out| && HasScore(q, S, F, c, score) ==> score <= out[i].score)
  }

  /** What the rows of an answer are, for any limits: each shows a chunk of one of the two lists with the
      score of the lists it is on, and a chunk of the lists that is not shown scores no more than any row. */
  lemma {:induction false} AnswerOverIndex(
    env: Env, f: Faults, events: seq<Event>, q: Query, m: nat, k: nat, S: seq<nat>, F: seq<nat>,
    out: seq<Hit<Shown>>)
    requires var s := Run(env, f, events); HybridAnswer(q, RowIds(s), Columns(s), m, k, S, F, out)
    ensures var s := Run(env, f, events);
            && (forall i :: 0 <= i < |out| ==> ShowsCandidate(s, q, S, F, out[i]))
            && (forall c :: c in S || c in F ==> Accounted(s, q, S, F, out, c))
  {
    var s := Run(env, f, events);
    RunIsSound(env, f, events);
    hide Run, Sound, Columns, HybridAnswer, ShowsCandidate, Accounted, RowIds;
    forall i | 0 <= i < |out| ensures ShowsCandidate(s, q, S, F, out[i]) {
      RowShows(env, s, q, m, k, S, F, out, i);
    }
    forall c | c in S || c in F ensures Accounted(s, q, S, F, out, c) {
      CandidateAccounted(env, s, q, m, k, S, F, out, c);
    }
  }

  lemma RowShows(env: Env, s: Store, q: Query, m: nat, k: nat, S: seq<nat>, F: seq<nat>, out: seq<Hit<Shown>>, i: nat)
    requires Sound(env, s) && HybridAnswer(q, RowIds(s), Columns(s), m, k, S, F, out) && i < |out|
    ensures ShowsCandidate(s, q, S, F, out[i])
  {
    HitsAre(q, Columns(s), S, F);
    hide Sound, Columns, Hits, IsShown, HasScore, CandidateHit, RowIds;
    var c :| (c in S || c in F) && out[i] == CandidateHit(q, Columns(s), S, F, c);
    Candidate(env, s, q, m, S, F, c);
  }

  lemma CandidateAccounted(
    env: Env, s: Store, q: Query, m: nat, k: nat, S: seq<nat>, F: seq<nat>, out: seq<Hit<Shown>>, c: nat)
    requires Sound(env, s) && HybridAnswer(q, RowIds(s), Columns(s), m, k, S, F, out) && (c in S || c in F)
    ensures Accounted(s, q, S, F, out, c)
  {
    HitsAre(q, Columns(s), S, F);
    hide Sound, Columns, Hits, IsShown, HasScore, CandidateHit, RowIds;
    Candidate(env, s, q, m, S, F, c);
    hide Ranked;
    NotShown(q, Columns(s), S, F, k, out, c);
  }

  lemma Candidate(env: Env, s: Store, q: Query, m: nat, S: seq<nat>, F: seq<nat>, c: nat)
    requires Sound(env, s) && (c in S || c in F)
    requires Ranked(S, RowIds(s), q.similarity, m) && Ranked(F, Matching(q, RowIds(s)), id => q.FulltextPart(id), m)
    ensures var hit := CandidateHit(q, Columns(s), S, F, c);
            IsShown(s, c, hit.info) && HasScore(q, S, F, c, hit.score)
  {
    if c in S {
      RankedMember(S, RowIds(s), q.similarity, m, c);
    } else {
      RankedMember(F, Matching(q, RowIds(s)), x => q.FulltextPart(x), m, c);
    }
    hide Sound, Columns, IsShown, HasScore, CandidateHit, Ranked;
    ColumnsShown(env, s, c);
    CandidateIs(q, Columns(s), S, F, c);
  }

  lemma NotShown<T(!new)>(
    q: Query, info: nat -> T, S: seq<nat>, F: seq<nat>, k: nat, out: seq<Hit<T>>, c: nat)
    requires Ranked(out, Hits(q, info, S, F), ScoreOf, k)
    requires CandidateHit(q, info, S, F, c) in Hits(q, info, S, F)
    ensures || CandidateHit(q, info, S, F, c) in out
            || (forall i, score :: 0 <= i < |out| && HasScore(q, S, F, c, score) ==> score <= out[i].score)
  {
    CandidateIs(q, info, S, F, c);
    hide Hits, CandidateHit;
    var hit := CandidateHit(q, info, S, F, c);
    forall i, score | 0 <= i < |out| && HasScore(q, S, F, c, score) && hit !in out ensures score <= out[i].score {
      assert ScoreOf(hit) <= ScoreOf(out[i]);
    }
  }

  /** Over the index left by any run of the service, whatever failed in it, DISTINCT removes no row of any
      answer. */
  lemma {:induction false} DistinctOverIndex(
    env: Env, f: Faults, events: seq<Event>, q: Query, m: nat, S: seq<nat>, F: seq<nat>)
    requires var ids := RowIds(Run(env, f, events));
             Ranked(S, ids, q.similarity, m) && Ranked(F, Matching(q, ids), id => q.FulltextPart(id), m)
    ensures |Hits(q, Columns(Run(env, f, events)), S, F)| == |FullOuterJoin(S, F)|
  {
    var s := Run(env, f, events);
    RunIsSound(env, f, events);
    ColumnsTellRowsApart(env, s);
    hide Run, Sound, Columns, Hits, FullOuterJoin;
    forall id | id in SetOf(S + F) ensures id in RowIds(s) {
      if id in S {
        RankedMember(S, RowIds(s), q.similarity, m, id);
      } else {
        RankedMember(F, Matching(q, RowIds(s)), x => q.FulltextPart(x), m, id);
      }
    }
    hide RowIds;
    DistinctRemovesNothing(q, Columns(s), S, F);
  }

  /** And over the same index the approximation bound holds. */
  lemma {:induction false} BoundOverIndex(
    env: Env, f: Faults, events: seq<Event>, q: Query, m: nat, k: nat, S: seq<nat>, F: seq<nat>,
    out: seq<Hit<Shown>>, c: nat, slack: real)
    requires k <= m
    requires var s := Run(env, f, events);
             && HybridAnswer(q, RowIds(s), Columns(s), m, k, S, F, out) && Bounded(q, RowIds(s), slack)
             && c < |s.rows| && !Returned(Columns(s), out, c)
    ensures forall i :: 0 <= i < |out| ==> q.TrueScore(c) <= 2.0 * out[i].score + slack
  {
    var s := Run(env, f, events);
    RunIsSound(env, f, events);
    ColumnsTellRowsApart(env, s);
    hide Run, Sound, Columns, Bounded, Returned, HybridAnswer, InjectiveOn;
    TwoApproximation(q, RowIds(s), Columns(s), m, k, S, F, out, c, slack);
  }

  /** Both parts, weighted; the text part only for a match. */
  ghost predicate HasWholeScore(q: Query, c: nat, score: real) {
    score == q.similarity(c) * q.semanticWeight + if q.matches(c) then q.rank(c) * q.fulltextWeight else 0.0
  }

  lemma WholeScore(q: Query, c: nat)
    ensures HasWholeScore(q, c, q.TrueScore(c))
  {
  }

  ghost predicate ShownWhole(s: Store, q: Query, out: seq<Hit<Shown>>, c: nat) {
    exists i :: 0 <= i < |out| && IsShown(s, c, out[i].info) && HasWholeScore(q, c, out[i].score)
  }

  lemma ShownByTrueScore(env: Env, s: Store, q: Query, out: seq<Hit<Shown>>, c: nat)
    requires Sound(env, s) && c < |s.rows| && Hit(Columns(s)(c), q.TrueScore(c)) in out
    ensures ShownWhole(s, q, out, c)
  {
    ColumnsShown(env, s, c);
    WholeScore(q, c);
    hide Sound, Columns, IsShown, HasWholeScore, Query.TrueScore;
    var i :| 0 <= i < |out| && out[i] == Hit(Columns(s)(c), q.TrueScore(c));
  }

  /** With the limit no smaller than the chunk table, the answer over the index shows every stored chunk,
      once each, with its whole weighted score and in that order. */
  lemma {:induction false} AllChunksOverIndex(
    env: Env, f: Faults, events: seq<Event>, q: Query, m: nat, k: nat, S: seq<nat>, F: seq<nat>,
    out: seq<Hit<Shown>>)
    requires var s := Run(env, f, events);
             HybridAnswer(q, RowIds(s), Columns(s), m, k, S, F, out) && |s.rows| <= k <= m
    ensures var s := Run(env, f, events);
            && |out| == |s.rows| && NoDuplicates(out)
            && (forall c: nat :: c < |s.rows| ==> ShownWhole(s, q, out, c))
            && (forall i, j :: 0 <= i < j < |out| ==> out[i].score >= out[j].score)
  {
    var s := Run(env, f, events);
    RunIsSound(env, f, events);
    ColumnsTellRowsApart(env, s);
    hide Run, Sound, Columns, ShownWhole, HybridAnswer, InjectiveOn, NoDuplicates, Query.TrueScore;
    AllReturnedWhenLimitCovers(q, RowIds(s), Columns(s), m, k, S, F, out);
    forall c: nat | c < |s.rows| ensures ShownWhole(s, q, out, c) {
      ShownByTrueScore(env, s, q, out, c);
    }
  }

  // ----- scores as functions of the texts -----

  /** The query of the API: distances are taken to the stored embeddings, ranks and matches from the stored
      texts, and the weights are fixed. */
  function ApiQuery(
    s: Store, distance: (Embedding, Embedding) -> real, embedded: Embedding, rank: string -> real,
    matches: string -> bool): Query
  {
    Query((i: nat) => if i < |s.rows| then 1.0 - distance(s.rows[i].payload.embedding, embedded) else 0.0,
          (i: nat) => if i < |s.rows| then rank(s.rows[i].payload.entry.chunk.content) else 0.0,
          (i: nat) => i < |s.rows| && matches(s.rows[i].payload.entry.chunk.content), 0.7, 0.3)
  }

  /** Over the index of any run the true score of a chunk depends on its own text only: the distance of the
      embedding of its cleaned text, and the rank of the text. */
  lemma {:induction false} ScoreOfText(
    env: Env, f: Faults, events: seq<Event>, distance: (Embedding, Embedding) -> real, embedded: Embedding,
    rank: string -> real, matches: string -> bool, c: nat)
    requires c < |Run(env, f, events).rows|
    ensures var s := Run(env, f, events);
            var text := s.rows[c].payload.entry.chunk.content;
            ApiQuery(s, distance, embedded, rank, matches).TrueScore(c) ==
              (1.0 - distance(env.embed(Clean(text)), embedded)) * 0.7
              + if matches(text) then rank(text) * 0.3 else 0.0
  {
    StoredRow(env, f, events, c);
    hide Run, Clean, EntryFrom;
  }

  /** Cosine distances are at most 2 and ranks are not negative; so over the index of any run a chunk that
      the API leaves out has a true score of at most twice each returned score plus 0.7. */
  lemma {:induction false} ApiBound(
    env: Env, f: Faults, events: seq<Event>, distance: (Embedding, Embedding) -> real, embedded: Embedding,
    rank: string -> real, matches: string -> bool, limit: nat, S: seq<nat>, F: seq<nat>, out: seq<Hit<Shown>>,
    c: nat)
    requires (forall a, b :: distance(a, b) <= 2.0) && (forall text :: rank(text) >= 0.0)
    requires var s := Run(env, f, events);
             var q := ApiQuery(s, distance, embedded, rank, matches);
             && HybridAnswer(q, RowIds(s), Columns(s), limit, limit, S, F, out)
             && c < |s.rows| && !Returned(Columns(s), out, c)
    ensures var q := ApiQuery(Run(env, f, events), distance, embedded, rank, matches);
            forall i :: 0 <= i < |out| ==> q.TrueScore(c) <= 2.0 * out[i].score + 0.7
  {
    var s := Run(env, f, events);
    hide Run, Columns, HybridAnswer, Returned, Query.TrueScore;
    var q := ApiQuery(s, distance, embedded, rank, matches);
    forall id | id in RowIds(s) ensures q.rank(id) >= 0.0 && q.SemanticPart(id) >= -0.7 {
      assert distance(s.rows[id].payload.embedding, embedded) <= 2.0;
      assert rank(s.rows[id].payload.entry.chunk.content) >= 0.0;
    }
    BoundOverIndex(env, f, events, q, limit, limit, S, F, out, c, 0.7);
  }
}
