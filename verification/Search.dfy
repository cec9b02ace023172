/** The hybrid search query: two ranked lists, a full outer join, a new score, a cut. */
module Search {
  import opened Wrappers

  // ----- ORDER BY score DESC LIMIT k -----

  /** Any list the database may return: the order of equal scores is left open. */
  ghost predicate Ranked<T(!new)>(out: seq<T>, pool: set<T>, score: T -> real, k: nat) {
    && |out| == (if |pool| <= k then |pool| else k)
    && (forall i :: 0 <= i < |out| ==> out[i] in pool)
    && (forall i, j :: 0 <= i < j < |out| ==> out[i] != out[j])
    && (forall i, j :: 0 <= i < j < |out| ==> score(out[i]) >= score(out[j]))
    && (forall x, i :: x in pool && x !in out && 0 <= i < |out| ==> score(x) <= score(out[i]))
  }

  lemma {:induction false} BestOf<T(!new)>(pool: set<T>, score: T -> real) returns (best: T)
    requires pool != {}
    ensures best in pool && forall x :: x in pool ==> score(x) <= score(best)
    decreases |pool|
  {
    best :| best in pool;
    var rest := pool - {best};
    if rest != {} {
      var other := BestOf(rest, score);
      if score(best) < score(other) {
        best := other;
      }
    }
  }

  /** Every pool has a ranked list. */
  lemma {:induction false} RankedExists<T(!new)>(pool: set<T>, score: T -> real, k: nat) returns (out: seq<T>)
    ensures Ranked(out, pool, score, k)
    decreases k
  {
    if k == 0 || pool == {} {
      out := [];
    } else {
      var best := BestOf(pool, score);
      var rest := RankedExists(pool - {best}, score, k - 1);
      RankedCons(best, rest, pool, score, k);
      out := [best] + rest;
    }
  }

  lemma RankedCons<T(!new)>(best: T, rest: seq<T>, pool: set<T>, score: T -> real, k: nat)
    requires k > 0 && best in pool && forall x :: x in pool ==> score(x) <= score(best)
    requires Ranked(rest, pool - {best}, score, k - 1)
    ensures Ranked([best] + rest, pool, score, k)
  {
    var out := [best] + rest;
    forall x, i | x in pool && x !in out && 0 <= i < |out| ensures score(x) <= score(out[i]) {
      assert x != best && x !in rest by { assert out[0] == best; }
      if i > 0 { assert out[i] == rest[i - 1]; }
    }
  }

  function SetOf<T>(s: seq<T>): set<T> {
    set x | x in s
  }

  lemma {:induction false} SetOfSize<T>(s: seq<T>)
    ensures |SetOf(s)| <= |s|
    ensures (forall i, j :: 0 <= i < j < |s| ==> s[i] != s[j]) ==> |SetOf(s)| == |s|
  {
    if s != [] {
      SetOfSize(s[1..]);
      assert SetOf(s) == {s[0]} + SetOf(s[1..]);
    }
  }

  lemma {:induction false} SubsetSize<T>(a: set<T>, b: set<T>)
    requires a <= b
    ensures |a| <= |b|
    decreases |a|
  {
    if a != {} {
      var x :| x in a;
      SubsetSize(a - {x}, b - {x});
    }
  }

  /** When k rows of the pool score at least v, every returned row does. */
  lemma LimitDominates<T(!new)>(out: seq<T>, pool: set<T>, score: T -> real, k: nat, good: set<T>, v: real)
    requires Ranked(out, pool, score, k)
    requires good <= pool && |good| >= k && forall x :: x in good ==> score(x) >= v
    ensures forall i :: 0 <= i < |out| ==> score(out[i]) >= v
  {
    forall i | 0 <= i < |out| ensures score(out[i]) >= v {
      if score(out[i]) < v {
        forall x | x in good ensures x in SetOf(out) {
          assert score(x) > score(out[i]);
        }
        SetOfSize(out);
        assert out[i] !in good;
        SubsetSize(good + {out[i]}, SetOf(out));
        assert false;
      }
    }
  }

  // ----- the query -----

  /** Scores are what the database computes for one query; chunk ids are numbers. */
  datatype Query = Query(
    similarity: nat -> real,
    rank: nat -> real,
    matches: nat -> bool,
    semanticWeight: real,
    fulltextWeight: real)
  {
    function SemanticPart(id: nat): real {
      similarity(id) * semanticWeight
    }

    function FulltextPart(id: nat): real {
      rank(id) * fulltextWeight
    }

    /** The weighted score of a chunk when both parts are looked up for it. */
    function TrueScore(id: nat): real {
      SemanticPart(id) + if matches(id) then FulltextPart(id) else 0.0
    }
  }

  datatype Joined = Joined(s: Option<nat>, f: Option<nat>)

  /** `semantic_results s FULL OUTER JOIN fulltext_results f ON s.id = f.id`. */
  function FullOuterJoin(S: seq<nat>, F: seq<nat>): seq<Joined> {
    LeftJoin(S, F) + RightOnly(S, F)
  }

  function LeftJoin(S: seq<nat>, F: seq<nat>): (r: seq<Joined>)
    ensures |r| == |S|
    ensures forall i :: 0 <= i < |S| ==> r[i] == Joined(Some(S[i]), if S[i] in F then Some(S[i]) else None)
  {
    if S == [] then [] else [Joined(Some(S[0]), if S[0] in F then Some(S[0]) else None)] + LeftJoin(S[1..], F)
  }

  function RightOnly(S: seq<nat>, F: seq<nat>): seq<Joined> {
    if F == [] then []
    else (if F[0] in S then [] else [Joined(None, Some(F[0]))]) + RightOnly(S, F[1..])
  }

  /** `COALESCE(s.id, f.id)`. */
  function IdOf(j: Joined): nat {
    if j.s.Some? then j.s.value else if j.f.Some? then j.f.value else 0
  }

  function Side(id: nat, list: seq<nat>): Option<nat> {
    if id in list then Some(id) else None
  }

  predicate NoDuplicates<T(==)>(s: seq<T>) {
    forall i, j :: 0 <= i < j < |s| ==> s[i] != s[j]
  }

  lemma {:induction false} RightOnlyExact(S: seq<nat>, F: seq<nat>)
    requires NoDuplicates(F)
    ensures var r := RightOnly(S, F);
            && NoDuplicates(r)
            && (forall j :: j in r <==> j.s.None? && j.f.Some? && j.f.value in F && j.f.value !in S)
  {
    if F != [] {
      RightOnlyExact(S, F[1..]);
      assert F == [F[0]] + F[1..];
    }
  }

  /** The join has one row for each id of either list, and that row holds exactly the sides the id
      appears on. */
  lemma JoinExact(S: seq<nat>, F: seq<nat>)
    requires NoDuplicates(S) && NoDuplicates(F)
    ensures var r := FullOuterJoin(S, F);
            && (forall i, j :: 0 <= i < j < |r| ==> IdOf(r[i]) != IdOf(r[j]))
            && (forall row :: row in r <==> (IdOf(row) in S || IdOf(row) in F)
                                            && row == Joined(Side(IdOf(row), S), Side(IdOf(row), F)))
  {
    RightOnlyExact(S, F);
    var left, right := LeftJoin(S, F), RightOnly(S, F);
    LeftJoinExact(S, F);
    hide LeftJoin, RightOnly;
    var r := FullOuterJoin(S, F);
    forall i, j | 0 <= i < j < |r| ensures IdOf(r[i]) != IdOf(r[j]) {
      assert r[i] == if i < |left| then left[i] else right[i - |left|];
      assert r[j] == if j < |left| then left[j] else right[j - |left|];
      assert i >= |left| ==> r[i] in right;
      assert j >= |left| ==> r[j] in right;
    }
    forall row ensures row in r <==> row in left || row in right {}
  }

  lemma {:induction false} LeftJoinExact(S: seq<nat>, F: seq<nat>)
    requires NoDuplicates(S)
    ensures forall row :: row in LeftJoin(S, F) <==> row.s.Some? && row.s.value in S && row.f == Side(row.s.value, F)
  {
  }

  /** An output row: what is shown of the chunk, and its combined score. */
  datatype Hit<T> = Hit(info: T, score: real)

  function ScoreOf<T>(h: Hit<T>): real {
    h.score
  }

  function HitOf<T>(q: Query, info: nat -> T, j: Joined): Hit<T> {
    Hit(info(IdOf(j)),
        (if j.s.Some? then q.SemanticPart(j.s.value) else 0.0) + (if j.f.Some? then q.FulltextPart(j.f.value) else 0.0))
  }

  /** The rows of the join after SELECT DISTINCT. */
  ghost function Hits<T>(q: Query, info: nat -> T, S: seq<nat>, F: seq<nat>): set<Hit<T>> {
    set j | j in FullOuterJoin(S, F) :: HitOf(q, info, j)
  }

  ghost predicate InjectiveOn<T>(info: nat -> T, ids: set<nat>) {
    forall a, b :: a in ids && b in ids && info(a) == info(b) ==> a == b
  }

  function Matching(q: Query, ids: set<nat>): set<nat> {
    set id | id in ids && q.matches(id)
  }

  /** `out` is a possible answer over the chunks `ids`: S and F are the two ranked lists, each cut
      at m, and the answer is cut at k. The API cuts all three at the limit; the SQL function takes
      m = 2 * k. */
  ghost predicate HybridAnswer<T(!new)>(q: Query, ids: set<nat>, info: nat -> T, m: nat, k: nat,
                                        S: seq<nat>, F: seq<nat>, out: seq<Hit<T>>) {
    && Ranked(S, ids, q.similarity, m)
    && Ranked(F, Matching(q, ids), id => q.FulltextPart(id), m)
    && Ranked(out, Hits(q, info, S, F), ScoreOf, k)
  }

  // ----- what the join scores -----

  function CandidateScore(q: Query, S: seq<nat>, F: seq<nat>, id: nat): real {
    (if id in S then q.SemanticPart(id) else 0.0) + (if id in F then q.FulltextPart(id) else 0.0)
  }

  function CandidateHit<T>(q: Query, info: nat -> T, S: seq<nat>, F: seq<nat>, id: nat): Hit<T> {
    Hit(info(id), CandidateScore(q, S, F, id))
  }

  lemma HitOfSides<T>(q: Query, info: nat -> T, S: seq<nat>, F: seq<nat>, id: nat)
    requires id in S || id in F
    ensures var j := Joined(Side(id, S), Side(id, F));
            IdOf(j) == id && HitOf(q, info, j) == CandidateHit(q, info, S, F, id)
  {
  }

  lemma HitsAre<T>(q: Query, info: nat -> T, S: seq<nat>, F: seq<nat>)
    requires NoDuplicates(S) && NoDuplicates(F)
    ensures forall id :: id in S || id in F ==> CandidateHit(q, info, S, F, id) in Hits(q, info, S, F)
    ensures forall h :: h in Hits(q, info, S, F) ==>
                          exists id :: (id in S || id in F) && h == CandidateHit(q, info, S, F, id)
  {
    JoinExact(S, F);
    hide FullOuterJoin, HitOf, CandidateHit, IdOf, Side;
    forall id | id in S || id in F ensures CandidateHit(q, info, S, F, id) in Hits(q, info, S, F) {
      HitOfSides(q, info, S, F, id);
      assert Joined(Side(id, S), Side(id, F)) in FullOuterJoin(S, F);
    }
    forall h | h in Hits(q, info, S, F)
      ensures exists id :: (id in S || id in F) && h == CandidateHit(q, info, S, F, id)
    {
      var j :| j in FullOuterJoin(S, F) && h == HitOf(q, info, j);
      HitOfSides(q, info, S, F, IdOf(j));
    }
  }

  /** The output rows of some candidates. */
  ghost function HitsFor<T>(q: Query, info: nat -> T, S: seq<nat>, F: seq<nat>, ids: set<nat>): set<Hit<T>> {
    set id | id in ids :: CandidateHit(q, info, S, F, id)
  }

  lemma {:induction false} HitsForSize<T>(q: Query, info: nat -> T, S: seq<nat>, F: seq<nat>, ids: set<nat>)
    requires InjectiveOn(info, ids)
    ensures |HitsFor(q, info, S, F, ids)| == |ids|
    decreases |ids|
  {
    if ids != {} {
      var id :| id in ids;
      var rest := ids - {id};
      HitsForSize(q, info, S, F, rest);
      var hit := CandidateHit(q, info, S, F, id);
      assert HitsFor(q, info, S, F, ids) == HitsFor(q, info, S, F, rest) + {hit};
      assert hit !in HitsFor(q, info, S, F, rest);
    }
  }

  /** There is one joined row for each candidate. */
  lemma JoinSize(S: seq<nat>, F: seq<nat>)
    requires NoDuplicates(S) && NoDuplicates(F)
    ensures |FullOuterJoin(S, F)| == |SetOf(S + F)|
  {
    JoinExact(S, F);
    hide FullOuterJoin, IdOf, Side;
    var r := FullOuterJoin(S, F);
    var joinedIds := seq(|r|, i requires 0 <= i < |r| => IdOf(r[i]));
    SetOfSize(joinedIds);
    forall id | id in S + F ensures id in joinedIds {
      IdOfSides(S, F, id);
      var i :| 0 <= i < |r| && r[i] == Joined(Side(id, S), Side(id, F));
      assert joinedIds[i] == id;
    }
    forall id | id in joinedIds ensures id in S + F {
      var i :| 0 <= i < |r| && joinedIds[i] == id;
      assert r[i] in r;
    }
    assert SetOf(joinedIds) == SetOf(S + F);
  }

  lemma IdOfSides(S: seq<nat>, F: seq<nat>, id: nat)
    requires id in S || id in F
    ensures IdOf(Joined(Side(id, S), Side(id, F))) == id
  {
  }

  /** DISTINCT removes nothing when the shown columns tell chunks apart: there is one output row for
      each joined row. */
  lemma DistinctRemovesNothing<T>(q: Query, info: nat -> T, S: seq<nat>, F: seq<nat>)
    requires NoDuplicates(S) && NoDuplicates(F) && InjectiveOn(info, SetOf(S + F))
    ensures |Hits(q, info, S, F)| == |FullOuterJoin(S, F)|
    ensures Hits(q, info, S, F) == HitsFor(q, info, S, F, SetOf(S + F))
  {
    HitsAre(q, info, S, F);
    HitsForSize(q, info, S, F, SetOf(S + F));
    JoinSize(S, F);
    hide FullOuterJoin, Hits, CandidateHit;
    var candidates := SetOf(S + F);
    forall h | h in Hits(q, info, S, F) ensures h in HitsFor(q, info, S, F, candidates) {
      var id :| (id in S || id in F) && h == CandidateHit(q, info, S, F, id);
      assert id in candidates;
    }
    forall h | h in HitsFor(q, info, S, F, candidates) ensures h in Hits(q, info, S, F) {
      var id :| id in candidates && h == CandidateHit(q, info, S, F, id);
    }
    assert Hits(q, info, S, F) == HitsFor(q, info, S, F, candidates);
  }

  // ----- the approximation bound -----

  /** When one ranked list holds k chunks whose joined scores are at least v, so are all returned
      scores: distinct chunks stay distinct rows, so k rows compete for k places. */
  lemma LeftOutOfList<T(!new)>(q: Query, info: nat -> T, m: nat, k: nat, S: seq<nat>, F: seq<nat>,
                               out: seq<Hit<T>>, list: seq<nat>, v: real)
    requires NoDuplicates(S) && NoDuplicates(F) && NoDuplicates(list)
    requires InjectiveOn(info, SetOf(list)) && |list| >= k
    requires list == S || list == F
    requires forall id :: id in list ==> CandidateScore(q, S, F, id) >= v
    requires Ranked(out, Hits(q, info, S, F), ScoreOf, k)
    ensures forall i :: 0 <= i < |out| ==> out[i].score >= v
  {
    var good := HitsFor(q, info, S, F, SetOf(list));
    HitsAre(q, info, S, F);
    HitsForSize(q, info, S, F, SetOf(list));
    SetOfSize(list);
    hide CandidateScore, Hits, FullOuterJoin;
    forall h | h in good ensures ScoreOf(h) >= v {
      var id :| id in SetOf(list) && h == CandidateHit(q, info, S, F, id);
    }
    LimitDominates(out, Hits(q, info, S, F), ScoreOf, k, good, v);
    forall i | 0 <= i < |out| ensures out[i].score >= v { assert ScoreOf(out[i]) >= v; }
  }

  ghost predicate Returned<T>(info: nat -> T, out: seq<Hit<T>>, id: nat) {
    exists i :: 0 <= i < |out| && out[i].info == info(id)
  }

  /** The scores are weighted with non-negative weights, text ranks are not negative, and no semantic
      part is below -slack (cosine similarity lies in -1..1). */
  ghost predicate Bounded(q: Query, ids: set<nat>, slack: real) {
    && q.semanticWeight >= 0.0 && q.fulltextWeight >= 0.0 && slack >= 0.0
    && forall id :: id in ids ==> q.rank(id) >= 0.0 && q.SemanticPart(id) >= -slack
  }

  lemma CandidateNotReturned<T(!new)>(q: Query, info: nat -> T, k: nat, S: seq<nat>, F: seq<nat>,
                                      out: seq<Hit<T>>, c: nat)
    requires NoDuplicates(S) && NoDuplicates(F)
    requires Ranked(out, Hits(q, info, S, F), ScoreOf, k)
    requires (c in S || c in F) && !Returned(info, out, c)
    ensures forall i :: 0 <= i < |out| ==> CandidateScore(q, S, F, c) <= out[i].score
  {
    HitsAre(q, info, S, F);
    hide CandidateScore, Hits;
    var hit := CandidateHit(q, info, S, F, c);
    assert hit !in out;
    forall i | 0 <= i < |out| ensures CandidateScore(q, S, F, c) <= out[i].score {
      assert ScoreOf(hit) <= ScoreOf(out[i]);
    }
  }

  lemma RankedMember<T(!new)>(out: seq<T>, pool: set<T>, score: T -> real, k: nat, y: T)
    requires Ranked(out, pool, score, k) && y in out
    ensures y in pool && forall x :: x in pool && x !in out ==> score(x) <= score(y)
  {
  }

  lemma SemanticMember(q: Query, S: seq<nat>, F: seq<nat>, c: nat, id: nat)
    requires id in S && q.similarity(c) <= q.similarity(id)
    requires q.semanticWeight >= 0.0 && q.fulltextWeight >= 0.0 && q.rank(id) >= 0.0
    ensures CandidateScore(q, S, F, id) >= q.SemanticPart(c)
  {
  }

  /** A chunk the semantic list left out. */
  lemma {:induction false} SemanticLeftOut<T(!new)>(
    q: Query, ids: set<nat>, info: nat -> T, m: nat, k: nat,
    S: seq<nat>, F: seq<nat>, out: seq<Hit<T>>, c: nat, slack: real)
    requires HybridAnswer(q, ids, info, m, k, S, F, out) && k <= m
    requires InjectiveOn(info, ids) && Bounded(q, ids, slack)
    requires c in ids && c !in S
    ensures forall i :: 0 <= i < |out| ==> q.SemanticPart(c) <= out[i].score
  {
    hide Hits, CandidateScore;
    SetOfSize(S);
    if |ids| <= m {
      SubsetSize(SetOf(S) + {c}, ids);
      assert false;
    }
    forall id | id in S ensures CandidateScore(q, S, F, id) >= q.SemanticPart(c) {
      RankedMember(S, ids, q.similarity, m, id);
      SemanticMember(q, S, F, c, id);
    }
    LeftOutOfList(q, info, m, k, S, F, out, S, q.SemanticPart(c));
  }

  /** A matching chunk the full-text list left out. */
  lemma {:induction false} FulltextLeftOut<T(!new)>(
    q: Query, ids: set<nat>, info: nat -> T, m: nat, k: nat,
    S: seq<nat>, F: seq<nat>, out: seq<Hit<T>>, c: nat, slack: real)
    requires HybridAnswer(q, ids, info, m, k, S, F, out) && k <= m
    requires InjectiveOn(info, ids) && Bounded(q, ids, slack)
    requires c in ids && q.matches(c) && c !in F
    ensures forall i :: 0 <= i < |out| ==> q.FulltextPart(c) - slack <= out[i].score
  {
    hide Hits;
    var matching := Matching(q, ids);
    SetOfSize(F);
    if |matching| <= m {
      SubsetSize(SetOf(F) + {c}, matching);
      assert false;
    }
    forall id | id in F ensures CandidateScore(q, S, F, id) >= q.FulltextPart(c) - slack {
      RankedMember(F, matching, x => q.FulltextPart(x), m, id);
    }
    LeftOutOfList(q, info, m, k, S, F, out, F, q.FulltextPart(c) - slack);
  }

  /** Hybrid search is a 2-approximation of brute-force scoring up to the slack: for any pool size
      m >= k, a chunk that is not returned has a true score of at most twice any returned score, plus
      the slack. With non-negative similarities the slack is 0. */
  lemma {:induction false} TwoApproximation<T(!new)>(
    q: Query, ids: set<nat>, info: nat -> T, m: nat, k: nat,
    S: seq<nat>, F: seq<nat>, out: seq<Hit<T>>, c: nat, slack: real)
    requires HybridAnswer(q, ids, info, m, k, S, F, out) && k <= m
    requires InjectiveOn(info, ids) && Bounded(q, ids, slack)
    requires c in ids && !Returned(info, out, c)
    ensures forall i :: 0 <= i < |out| ==> q.TrueScore(c) <= 2.0 * out[i].score + slack
  {
    hide Hits;
    if c !in S {
      SemanticLeftOut(q, ids, info, m, k, S, F, out, c, slack);
    }
    if q.matches(c) && c !in F {
      FulltextLeftOut(q, ids, info, m, k, S, F, out, c, slack);
    }
    if c in S || c in F {
      CandidateNotReturned(q, info, k, S, F, out, c);
    }
    ReturnedAboveSlack(q, ids, info, m, k, S, F, out, slack);
  }

  lemma {:induction false} ReturnedAboveSlack<T(!new)>(
    q: Query, ids: set<nat>, info: nat -> T, m: nat, k: nat,
    S: seq<nat>, F: seq<nat>, out: seq<Hit<T>>, slack: real)
    requires HybridAnswer(q, ids, info, m, k, S, F, out) && Bounded(q, ids, slack)
    ensures forall i :: 0 <= i < |out| ==> out[i].score >= -slack
  {
    hide Hits, CandidateScore;
    HitsAre(q, info, S, F);
    forall i | 0 <= i < |out| ensures out[i].score >= -slack {
      var id :| (id in S || id in F) && out[i] == CandidateHit(q, info, S, F, id);
      assert id in ids by { assert id in S ==> exists j :: 0 <= j < |S| && S[j] == id; }
      CandidateAboveSlack(q, ids, S, F, id, slack);
    }
  }

  lemma CandidateAboveSlack(q: Query, ids: set<nat>, S: seq<nat>, F: seq<nat>, id: nat, slack: real)
    requires Bounded(q, ids, slack) && id in ids
    ensures CandidateScore(q, S, F, id) >= -slack
  {
  }

  // ----- exactness -----

  /** The brute-force rows: every chunk with its true score. */
  ghost function TrueHits<T>(q: Query, info: nat -> T, ids: set<nat>): set<Hit<T>> {
    set id | id in ids :: Hit(info(id), q.TrueScore(id))
  }

  /** When the candidate lists are at least as long as the table, the answer is a brute-force top-k
      list. */
  lemma ExactWhenPoolCovers<T(!new)>(q: Query, ids: set<nat>, info: nat -> T, m: nat, k: nat, S: seq<nat>, F: seq<nat>,
                                     out: seq<Hit<T>>)
    requires Ranked(S, ids, q.similarity, m) && Ranked(F, Matching(q, ids), id => q.FulltextPart(id), m)
    requires |ids| <= m
    ensures HybridAnswer(q, ids, info, m, k, S, F, out) <==> Ranked(out, TrueHits(q, info, ids), ScoreOf, k)
  {
    CoversPool(S, ids, q.similarity, m);
    SubsetSize(Matching(q, ids), ids);
    CoversPool(F, Matching(q, ids), id => q.FulltextPart(id), m);
    HitsAreTrueHits(q, ids, info, S, F);
    hide Hits, TrueHits, Matching;
  }

  lemma HitsAreTrueHits<T>(q: Query, ids: set<nat>, info: nat -> T, S: seq<nat>, F: seq<nat>)
    requires NoDuplicates(S) && NoDuplicates(F)
    requires forall id :: id in ids <==> id in S
    requires forall id :: id in ids && q.matches(id) <==> id in F
    ensures Hits(q, info, S, F) == TrueHits(q, info, ids)
  {
    HitsAre(q, info, S, F);
    hide Hits;
    forall id | id in ids ensures CandidateHit(q, info, S, F, id) == Hit(info(id), q.TrueScore(id)) {}
    forall h | h in Hits(q, info, S, F) ensures h in TrueHits(q, info, ids) {
      var id :| (id in S || id in F) && h == CandidateHit(q, info, S, F, id);
      assert id in ids;
    }
    forall h | h in TrueHits(q, info, ids) ensures h in Hits(q, info, S, F) {
      var id :| id in ids && h == Hit(info(id), q.TrueScore(id));
      assert h == CandidateHit(q, info, S, F, id);
    }
  }

  /** With the limit no smaller than the table the answer is all chunks, once each, in true-score order. */
  lemma AllReturnedWhenLimitCovers<T(!new)>(
    q: Query, ids: set<nat>, info: nat -> T, m: nat, k: nat, S: seq<nat>, F: seq<nat>, out: seq<Hit<T>>)
    requires HybridAnswer(q, ids, info, m, k, S, F, out) && InjectiveOn(info, ids)
    requires |ids| <= k <= m
    ensures |out| == |ids| && NoDuplicates(out)
    ensures forall id :: id in ids ==> Hit(info(id), q.TrueScore(id)) in out
    ensures forall i, j :: 0 <= i < j < |out| ==> out[i].score >= out[j].score
  {
    ExactWhenPoolCovers(q, ids, info, m, k, S, F, out);
    TrueHitsSize(q, info, ids);
    hide Hits, TrueHits, HybridAnswer;
    CoversPool(out, TrueHits(q, info, ids), ScoreOf, k);
    forall id | id in ids ensures Hit(info(id), q.TrueScore(id)) in out { TrueHitIn(q, info, ids, id); }
    forall i, j | 0 <= i < j < |out| ensures out[i].score >= out[j].score {
      assert ScoreOf(out[i]) >= ScoreOf(out[j]);
    }
  }

  lemma TrueHitIn<T>(q: Query, info: nat -> T, ids: set<nat>, id: nat)
    requires id in ids
    ensures Hit(info(id), q.TrueScore(id)) in TrueHits(q, info, ids)
  {
  }

  lemma {:induction false} TrueHitsSize<T>(q: Query, info: nat -> T, ids: set<nat>)
    requires InjectiveOn(info, ids)
    ensures |TrueHits(q, info, ids)| == |ids|
    decreases |ids|
  {
    if ids != {} {
      var id :| id in ids;
      var rest := ids - {id};
      TrueHitsSize(q, info, rest);
      var hit := Hit(info(id), q.TrueScore(id));
      assert TrueHits(q, info, ids) == TrueHits(q, info, rest) + {hit};
      assert hit !in TrueHits(q, info, rest);
    }
  }

  lemma CoversPool<T(!new)>(out: seq<T>, pool: set<T>, score: T -> real, m: nat)
    requires Ranked(out, pool, score, m) && |pool| <= m
    ensures forall x :: x in pool <==> x in out
  {
    SetOfSize(out);
    forall x | x in pool ensures x in out {
      if x !in out {
        SubsetSize(SetOf(out) + {x}, pool);
        assert false;
      }
    }
  }

  // ----- the bound cannot be improved, for any limits -----

  /** The numbers below n. */
  function Below(n: nat): (r: set<nat>)
    ensures |r| == n && forall i :: i in r <==> 0 <= i < n
  {
    if n == 0 then {} else Below(n - 1) + {n - 1}
  }

  /** The n numbers from lo on. */
  function From(lo: nat, n: nat): (r: seq<nat>)
    ensures |r| == n && NoDuplicates(r) && forall i :: 0 <= i < n ==> r[i] == lo + i
  {
    seq(n, i requires 0 <= i < n => lo + i)
  }

  lemma {:induction false} FromHas(lo: nat, n: nat)
    ensures forall id :: id in From(lo, n) <==> lo <= id < lo + n
  {
    forall id | lo <= id < lo + n ensures id in From(lo, n) {
      assert From(lo, n)[id - lo] == id;
    }
  }

  /** The columns of the examples: the id itself. */
  function Itself(id: nat): nat {
    id
  }

  /** The first k chunks, all with score v. */
  function Level(k: nat, v: real): (out: seq<Hit<nat>>)
    ensures |out| == k && forall i :: 0 <= i < k ==> out[i] == Hit(i, v)
  {
    seq(k, i requires 0 <= i < k => Hit(i, v))
  }

  /** Any k rows of the highest score are a ranked list. */
  lemma LevelRanked<T(!new)>(out: seq<T>, pool: set<T>, score: T -> real, k: nat, v: real)
    requires |out| == k && NoDuplicates(out) && forall i :: 0 <= i < k ==> out[i] in pool && score(out[i]) == v
    requires forall x :: x in pool ==> score(x) <= v
    ensures Ranked(out, pool, score, k)
  {
    SetOfSize(out);
    SubsetSize(SetOf(out), pool);
  }

  lemma LevelAnswer(q: Query, S: seq<nat>, F: seq<nat>, k: nat, v: real)
    requires NoDuplicates(S) && NoDuplicates(F)
    requires forall id :: id in S || id in F ==> CandidateScore(q, S, F, id) == v
    requires forall id :: 0 <= id < k ==> id in S || id in F
    ensures Ranked(Level(k, v), Hits(q, Itself, S, F), ScoreOf, k)
  {
    HitsAre(q, Itself, S, F);
    hide Hits, CandidateScore;
    forall i | 0 <= i < k ensures Level(k, v)[i] in Hits(q, Itself, S, F) {
      assert CandidateHit(q, Itself, S, F, i) == Level(k, v)[i];
    }
    LevelRanked(Level(k, v), Hits(q, Itself, S, F), ScoreOf, k, v);
  }

  lemma LevelReturns(k: nat, v: real, c: nat)
    requires k <= c
    ensures !Returned(Itself, Level(k, v), c) && InjectiveOn(Itself, Below(c + 1))
  {
  }

  /** Of the chunks 0 .. 2 * m, the first m lead the semantic list and the next m the full-text list, with
      parts x; the last one ties with both and is on neither. */
  function TightQuery(a: real, b: real, x: real, m: nat): Query
    requires a > 0.0 && b > 0.0
  {
    Query(id => if m <= id < 2 * m then 0.0 else x / a, id => if id < m then 0.0 else x / b, id => id >= m, a, b)
  }

  lemma TightParts(a: real, b: real, x: real, m: nat)
    requires a > 0.0 && b > 0.0 && x >= 0.0
    ensures var q := TightQuery(a, b, x, m);
            && (forall id: nat :: q.SemanticPart(id) == if m <= id < 2 * m then 0.0 else x)
            && (forall id: nat :: q.FulltextPart(id) == if id < m then 0.0 else x)
            && (forall id: nat :: q.similarity(id) == if m <= id < 2 * m then 0.0 else x / a)
            && (forall id: nat :: q.rank(id) == if id < m then 0.0 else x / b)
            && (forall id: nat :: q.matches(id) <==> id >= m) && q.semanticWeight == a && q.fulltextWeight == b
            && x / a >= 0.0 && x / b >= 0.0
  {
    assert x / a * a == x && x / b * b == x;
  }

  lemma TightBounded(a: real, b: real, x: real, m: nat, w: real)
    requires a > 0.0 && b > 0.0 && x >= 0.0 && w >= 0.0
    ensures Bounded(TightQuery(a, b, x, m), Below(2 * m + 1), w)
  {
    TightParts(a, b, x, m);
    hide TightQuery, Query.SemanticPart, Query.FulltextPart;
  }

  lemma TightScore(a: real, b: real, x: real, m: nat)
    requires a > 0.0 && b > 0.0 && x >= 0.0
    ensures TightQuery(a, b, x, m).TrueScore(2 * m) == 2.0 * x
  {
    TightParts(a, b, x, m);
    hide TightQuery, Query.SemanticPart, Query.FulltextPart;
  }

  lemma TightSemantic(a: real, b: real, x: real, m: nat)
    requires a > 0.0 && b > 0.0 && x >= 0.0
    ensures Ranked(From(0, m), Below(2 * m + 1), TightQuery(a, b, x, m).similarity, m)
  {
    TightParts(a, b, x, m);
    hide TightQuery, Query.SemanticPart, Query.FulltextPart, Ranked;
    LevelRanked(From(0, m), Below(2 * m + 1), TightQuery(a, b, x, m).similarity, m, x / a);
  }

  lemma TightFulltext(a: real, b: real, x: real, m: nat)
    requires a > 0.0 && b > 0.0 && x >= 0.0
    ensures var q := TightQuery(a, b, x, m);
            Ranked(From(m, m), Matching(q, Below(2 * m + 1)), id => q.FulltextPart(id), m)
  {
    var q := TightQuery(a, b, x, m);
    TightParts(a, b, x, m);
    hide TightQuery, Query.SemanticPart, Query.FulltextPart, Ranked;
    LevelRanked(From(m, m), Matching(q, Below(2 * m + 1)), id => q.FulltextPart(id), m, x);
  }

  lemma TightCandidates(a: real, b: real, x: real, m: nat)
    requires a > 0.0 && b > 0.0 && x >= 0.0
    ensures forall id :: id in From(0, m) || id in From(m, m) ==>
                           CandidateScore(TightQuery(a, b, x, m), From(0, m), From(m, m), id) == x
  {
    TightParts(a, b, x, m);
    FromHas(0, m);
    FromHas(m, m);
    hide TightQuery, Query.SemanticPart, Query.FulltextPart;
  }

  /** Two is the best factor for all limits 1 <= k <= m, all positive weights and at every score x: a chunk
      that is not returned can score exactly twice all those that are. */
  lemma {:induction false} FactorTwoIsTight(a: real, b: real, x: real, m: nat, k: nat)
    requires a > 0.0 && b > 0.0 && x >= 0.0 && 1 <= k <= m
    ensures var q, ids, out := TightQuery(a, b, x, m), Below(2 * m + 1), Level(k, x);
            && Bounded(q, ids, 0.0) && InjectiveOn(Itself, ids)
            && HybridAnswer(q, ids, Itself, m, k, From(0, m), From(m, m), out)
            && !Returned(Itself, out, 2 * m) && q.TrueScore(2 * m) == 2.0 * x
  {
    hide TightQuery, Ranked, Matching, CandidateScore, Returned, InjectiveOn, Bounded, Level, Query.TrueScore;
    TightBounded(a, b, x, m, 0.0);
    TightScore(a, b, x, m);
    TightSemantic(a, b, x, m);
    TightFulltext(a, b, x, m);
    TightCandidates(a, b, x, m);
    LevelReturns(k, x, 2 * m);
    FromHas(0, m);
    FromHas(m, m);
    LevelAnswer(TightQuery(a, b, x, m), From(0, m), From(m, m), k, x);
  }

  /** Nothing matches the text, and all semantic parts are -w. */
  function SlackQuery(a: real, b: real, w: real): Query
    requires a > 0.0
  {
    Query(id => -w / a, id => 0.0, id => false, a, b)
  }

  lemma SlackParts(a: real, b: real, w: real)
    requires a > 0.0 && b > 0.0 && w >= 0.0
    ensures var q := SlackQuery(a, b, w);
            && (forall id: nat :: q.SemanticPart(id) == -w && q.TrueScore(id) == -w)
            && (forall id: nat :: q.similarity(id) == -w / a && q.rank(id) == 0.0 && !q.matches(id))
            && q.semanticWeight == a && q.fulltextWeight == b
  {
    assert -w / a * a == -w;
  }

  lemma SlackBounded(a: real, b: real, w: real, ids: set<nat>)
    requires a > 0.0 && b > 0.0 && w >= 0.0
    ensures Bounded(SlackQuery(a, b, w), ids, w)
  {
    SlackParts(a, b, w);
    hide SlackQuery, Query.SemanticPart, Query.TrueScore;
  }

  lemma SlackScore(a: real, b: real, w: real, id: nat)
    requires a > 0.0 && b > 0.0 && w >= 0.0
    ensures SlackQuery(a, b, w).TrueScore(id) == -w == 2.0 * -w + w
  {
    SlackParts(a, b, w);
  }

  lemma SlackLists(a: real, b: real, w: real, m: nat)
    requires a > 0.0 && b > 0.0 && w >= 0.0
    ensures var q, ids := SlackQuery(a, b, w), Below(m + 1);
            Ranked(From(0, m), ids, q.similarity, m) && Ranked([], Matching(q, ids), id => q.FulltextPart(id), m)
  {
    var q, ids := SlackQuery(a, b, w), Below(m + 1);
    SlackParts(a, b, w);
    hide SlackQuery, Query.SemanticPart, Query.TrueScore;
    LevelRanked(From(0, m), ids, q.similarity, m, -w / a);
    assert Matching(q, ids) == {};
  }

  lemma SlackCandidates(a: real, b: real, w: real, m: nat)
    requires a > 0.0 && b > 0.0 && w >= 0.0
    ensures forall id :: id in From(0, m) ==> CandidateScore(SlackQuery(a, b, w), From(0, m), [], id) == -w
  {
    SlackParts(a, b, w);
    hide SlackQuery, Query.SemanticPart, Query.TrueScore;
  }

  /** With semantic parts of at least -w the bound with slack w is reached, for all limits 1 <= k <= m and
      all positive weights. */
  lemma {:induction false} SlackIsReached(a: real, b: real, w: real, m: nat, k: nat)
    requires a > 0.0 && b > 0.0 && w >= 0.0 && 1 <= k <= m
    ensures var q, ids, out := SlackQuery(a, b, w), Below(m + 1), Level(k, -w);
            && Bounded(q, ids, w) && InjectiveOn(Itself, ids)
            && HybridAnswer(q, ids, Itself, m, k, From(0, m), [], out)
            && !Returned(Itself, out, m) && q.TrueScore(m) == -w == 2.0 * -w + w
  {
    hide SlackQuery, Ranked, Matching, CandidateScore, Returned, InjectiveOn, Bounded, Level, Query.TrueScore;
    SlackBounded(a, b, w, Below(m + 1));
    SlackScore(a, b, w, m);
    SlackLists(a, b, w, m);
    SlackCandidates(a, b, w, m);
    LevelReturns(k, -w, m);
    FromHas(0, m);
    LevelAnswer(SlackQuery(a, b, w), From(0, m), [], k, -w);
  }

  /** For limits m and k and weights a and b, every answer to every query with semantic parts of at least
      -w leaves out only chunks of at most `factor` times each returned score plus t. */
  ghost predicate BoundHolds(a: real, b: real, w: real, m: nat, k: nat, factor: real, t: real) {
    forall q: Query, ids: set<nat>, info: nat -> nat, S: seq<nat>, F: seq<nat>,
      out: seq<Hit<nat>>, c: nat, i: nat ::
      && q.semanticWeight == a && q.fulltextWeight == b
      && HybridAnswer(q, ids, info, m, k, S, F, out)
      && InjectiveOn(info, ids) && Bounded(q, ids, w)
      && c in ids && !Returned(info, out, c) && i < |out|
      ==> q.TrueScore(c) <= factor * out[i].score + t
  }

  lemma BoundFollows(score: real, v: real, w: real, factor: real, t: real)
    requires score <= 2.0 * v + w && v >= -w && factor >= 2.0 && t >= (factor - 1.0) * w
    ensures score <= factor * v + t
  {
    assert (factor - 2.0) * (v + w) >= 0.0;
  }

  lemma BoundSuffices(a: real, b: real, w: real, m: nat, k: nat, factor: real, t: real)
    requires k <= m && factor >= 2.0 && t >= (factor - 1.0) * w
    ensures BoundHolds(a, b, w, m, k, factor, t)
  {
    hide HybridAnswer, Bounded, InjectiveOn, Returned, Query.TrueScore;
    forall q: Query, ids: set<nat>, info: nat -> nat, S: seq<nat>, F: seq<nat>,
      out: seq<Hit<nat>>, c: nat, i: nat |
      && q.semanticWeight == a && q.fulltextWeight == b
      && HybridAnswer(q, ids, info, m, k, S, F, out)
      && InjectiveOn(info, ids) && Bounded(q, ids, w)
      && c in ids && !Returned(info, out, c) && i < |out|
      ensures q.TrueScore(c) <= factor * out[i].score + t
    {
      TwoApproximation(q, ids, info, m, k, S, F, out, c, w);
      ReturnedAboveSlack(q, ids, info, m, k, S, F, out, w);
      BoundFollows(q.TrueScore(c), out[i].score, w, factor, t);
    }
  }

  /** A score at which a smaller factor does not make up for any constant. */
  lemma LargeScore(factor: real, t: real) returns (x: real)
    requires factor < 2.0
    ensures x >= 0.0 && 2.0 * x > factor * x + t
  {
    var d, top := 2.0 - factor, if t >= 0.0 then t + 1.0 else 1.0;
    x := top / d;
    assert x * d == top;
  }

  lemma Breaks(q: Query, w: real, ids: set<nat>, m: nat, k: nat, S: seq<nat>, F: seq<nat>, c: nat, v: real,
               factor: real, t: real)
    requires HybridAnswer(q, ids, Itself, m, k, S, F, Level(k, v)) && 1 <= k
    requires InjectiveOn(Itself, ids) && Bounded(q, ids, w) && c in ids && !Returned(Itself, Level(k, v), c)
    requires q.TrueScore(c) > factor * v + t
    ensures !BoundHolds(q.semanticWeight, q.fulltextWeight, w, m, k, factor, t)
  {
    hide HybridAnswer, InjectiveOn, Returned, Bounded, Query.TrueScore;
    var first: nat := 0;
    assert Level(k, v)[first].score == v;
  }

  lemma FactorNeeded(a: real, b: real, w: real, m: nat, k: nat, factor: real, t: real)
    requires a > 0.0 && b > 0.0 && w >= 0.0 && 1 <= k <= m && factor < 2.0
    ensures !BoundHolds(a, b, w, m, k, factor, t)
  {
    var x := LargeScore(factor, t);
    FactorTwoIsTight(a, b, x, m, k);
    TightBounded(a, b, x, m, w);
    TightParts(a, b, x, m);
    hide TightQuery, HybridAnswer, InjectiveOn, Returned, Bounded, BoundHolds, Query.TrueScore, Query.SemanticPart;
    var q, ids := TightQuery(a, b, x, m), Below(2 * m + 1);
    Breaks(q, w, ids, m, k, From(0, m), From(m, m), 2 * m, x, factor, t);
  }

  lemma SlackTooSmall(w: real, factor: real, t: real)
    requires t < (factor - 1.0) * w
    ensures -w > factor * -w + t
  {
  }

  lemma SlackWeights(a: real, b: real, w: real)
    requires a > 0.0
    ensures SlackQuery(a, b, w).semanticWeight == a && SlackQuery(a, b, w).fulltextWeight == b
  {
  }

  lemma SlackNeeded(a: real, b: real, w: real, m: nat, k: nat, factor: real, t: real)
    requires a > 0.0 && b > 0.0 && w >= 0.0 && 1 <= k <= m && t < (factor - 1.0) * w
    ensures !BoundHolds(a, b, w, m, k, factor, t)
  {
    hide SlackQuery, HybridAnswer, InjectiveOn, Returned, Bounded, BoundHolds, Query.TrueScore;
    var q, ids := SlackQuery(a, b, w), Below(m + 1);
    SlackIsReached(a, b, w, m, k);
    SlackTooSmall(w, factor, t);
    SlackWeights(a, b, w);
    Breaks(q, w, ids, m, k, From(0, m), [], m, -w, factor, t);
  }

  /** Which bounds hold, for any limits and positive weights: the factor must be at least 2, and the slack
      at least factor - 1 times the size of the most negative semantic part. A longer candidate list does
      not help. */
  lemma {:induction false} BoundExactly(a: real, b: real, w: real, m: nat, k: nat, factor: real, t: real)
    requires a > 0.0 && b > 0.0 && w >= 0.0 && 1 <= k <= m
    ensures BoundHolds(a, b, w, m, k, factor, t) <==> factor >= 2.0 && t >= (factor - 1.0) * w
  {
    hide BoundHolds;
    if factor < 2.0 {
      FactorNeeded(a, b, w, m, k, factor, t);
    } else if t < (factor - 1.0) * w {
      SlackNeeded(a, b, w, m, k, factor, t);
    } else {
      BoundSuffices(a, b, w, m, k, factor, t);
    }
  }
}
