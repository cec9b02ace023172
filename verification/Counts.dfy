/** The three counts that `process_all_documents` reports. */
module Counts {
  import opened Documents
  import opened Indexer
  import opened IndexRuns
  import opened Rebuild

  // ----- positions with a property -----

  function Positions(n: nat, p: nat -> bool): set<nat> {
    set i: nat | i < n && p(i)
  }

  lemma OneMore(n: nat, p: nat -> bool)
    ensures |Positions(n + 1, p)| == |Positions(n, p)| + if p(n) then 1 else 0
  {
    assert Positions(n + 1, p) == Positions(n, p) + if p(n) then {n} else {};
  }

  lemma SamePositions(n: nat, p: nat -> bool, q: nat -> bool)
    requires forall i: nat :: i < n ==> p(i) == q(i)
    ensures Positions(n, p) == Positions(n, q)
  {
  }

  // ----- what is counted -----

  /** The store when the run comes to position i of the listing. */
  function Before(env: Env, f: Faults, s: Store, files: map<Path, Bytes>, listing: seq<Path>, i: nat): Store {
    ProcessAll(env, f, s, files, if i <= |listing| then listing[..i] else listing).store
  }

  /** The file at position i is marked as done when the run comes to it. */
  predicate IsDone(env: Env, f: Faults, s: Store, files: map<Path, Bytes>, listing: seq<Path>, i: nat) {
    i < |listing| && UpToDate(env, Before(env, f, s, files, listing, i), files, listing[i])
  }

  /** It is not, and its call gives this answer. */
  predicate IsAnswered(
    env: Env, f: Faults, s: Store, files: map<Path, Bytes>, listing: seq<Path>, answer: bool, i: nat)
  {
    && i < |listing| && !IsDone(env, f, s, files, listing, i)
    && Process(env, f, Before(env, f, s, files, listing, i), files, listing[i]).1 == answer
  }

  function Done(env: Env, f: Faults, s: Store, files: map<Path, Bytes>, listing: seq<Path>): set<nat> {
    Positions(|listing|, (i: nat) => IsDone(env, f, s, files, listing, i))
  }

  function Answered(
    env: Env, f: Faults, s: Store, files: map<Path, Bytes>, listing: seq<Path>, answer: bool): set<nat>
  {
    Positions(|listing|, (i: nat) => IsAnswered(env, f, s, files, listing, answer, i))
  }

  lemma SameBefore(env: Env, f: Faults, s: Store, files: map<Path, Bytes>, listing: seq<Path>, n: nat, i: nat)
    requires i < n <= |listing|
    ensures IsDone(env, f, s, files, listing[..n], i) == IsDone(env, f, s, files, listing, i)
    ensures forall answer :: IsAnswered(env, f, s, files, listing[..n], answer, i)
                             == IsAnswered(env, f, s, files, listing, answer, i)
  {
    hide ProcessAll, Process, UpToDate;
    assert listing[..n][..i] == listing[..i];
  }

  /** The run skips the files that are marked as done when it comes to them, and counts every other file as
      processed or failed by the answer of its call. */
  lemma {:induction false} CountsExact(env: Env, f: Faults, s: Store, files: map<Path, Bytes>, listing: seq<Path>)
    ensures var r := ProcessAll(env, f, s, files, listing);
            && r.skipped == |Done(env, f, s, files, listing)|
            && r.processed == |Answered(env, f, s, files, listing, true)|
            && r.failed == |Answered(env, f, s, files, listing, false)|
    decreases |listing|
  {
    hide Process, UpToDate, Positions;
    if listing == [] {
      NoPositions(env, f, s, files);
    } else {
      var n := |listing| - 1;
      CountsExact(env, f, s, files, listing[..n]);
      DoneStep(env, f, s, files, listing);
      AnsweredStep(env, f, s, files, listing, true);
      AnsweredStep(env, f, s, files, listing, false);
      assert Before(env, f, s, files, listing, n) == ProcessAll(env, f, s, files, listing[..n]).store;
      hide Before, Done, Answered;
    }
  }

  lemma NoPositions(env: Env, f: Faults, s: Store, files: map<Path, Bytes>)
    ensures Done(env, f, s, files, []) == {} && forall answer :: Answered(env, f, s, files, [], answer) == {}
  {
  }

  lemma DoneStep(env: Env, f: Faults, s: Store, files: map<Path, Bytes>, listing: seq<Path>)
    requires listing != []
    ensures var n := |listing| - 1;
            |Done(env, f, s, files, listing)| == |Done(env, f, s, files, listing[..n])|
              + if IsDone(env, f, s, files, listing, n) then 1 else 0
  {
    hide IsDone, Positions;
    var n, p := |listing| - 1, (i: nat) => IsDone(env, f, s, files, listing, i);
    OneMore(n, p);
    forall i: nat | i < n ensures p(i) == IsDone(env, f, s, files, listing[..n], i) {
      SameBefore(env, f, s, files, listing, n, i);
    }
    SamePositions(n, p, (i: nat) => IsDone(env, f, s, files, listing[..n], i));
  }

  lemma AnsweredStep(env: Env, f: Faults, s: Store, files: map<Path, Bytes>, listing: seq<Path>, answer: bool)
    requires listing != []
    ensures var n := |listing| - 1;
            |Answered(env, f, s, files, listing, answer)| == |Answered(env, f, s, files, listing[..n], answer)|
              + if IsAnswered(env, f, s, files, listing, answer, n) then 1 else 0
  {
    hide IsAnswered, Positions;
    var n, p := |listing| - 1, (i: nat) => IsAnswered(env, f, s, files, listing, answer, i);
    OneMore(n, p);
    forall i: nat | i < n ensures p(i) == IsAnswered(env, f, s, files, listing[..n], answer, i) {
      SameBefore(env, f, s, files, listing, n, i);
    }
    SamePositions(n, p, (i: nat) => IsAnswered(env, f, s, files, listing[..n], answer, i));
  }

  ghost predicate Distinct(listing: seq<Path>) {
    forall i, j :: 0 <= i < j < |listing| ==> listing[i] != listing[j]
  }

  /** In a run without failures over distinct paths a file that is not marked as done is answered by whether
      it can be indexed. */
  lemma FaultFreeAnswer(env: Env, g: Faults, s: Store, files: map<Path, Bytes>, listing: seq<Path>, i: nat)
    requires Keys(s) && FaultFree(g) && env.cfg.batchSize != 0 && Distinct(listing) && i < |listing|
    ensures IsDone(env, g, s, files, listing, i) <==> UpToDate(env, s, files, listing[i])
    ensures forall answer :: IsAnswered(env, g, s, files, listing, answer, i) <==>
              !UpToDate(env, s, files, listing[i]) && answer == Indexable(env, files, listing[i]).Some?
  {
    hide Process, ProcessAll, Indexable, Look, Keys;
    var before := Before(env, g, s, files, listing, i);
    OthersUntouched(env, g, s, files, listing[..i]);
    UpToDateInView(env, s, files, listing[i]);
    UpToDateInView(env, before, files, listing[i]);
    AnswerExactly(env, g, before, files, listing[i]);
    hide Chunks, Embed;
  }

  /** In a run without failures over distinct paths, from any store: the files marked as done are skipped, of
      the others those that can be indexed are processed, and the rest fail. */
  lemma {:induction false} FaultFreeCounts(
    env: Env, g: Faults, s: Store, files: map<Path, Bytes>, listing: seq<Path>)
    requires Keys(s) && FaultFree(g) && env.cfg.batchSize != 0 && Distinct(listing)
    ensures var r := ProcessAll(env, g, s, files, listing);
            && r.skipped == |set i: nat | i < |listing| && UpToDate(env, s, files, listing[i])|
            && r.processed == |set i: nat | i < |listing| && !UpToDate(env, s, files, listing[i])
                                            && Indexable(env, files, listing[i]).Some?|
            && r.failed == |set i: nat | i < |listing| && !UpToDate(env, s, files, listing[i])
                                         && Indexable(env, files, listing[i]).None?|
  {
    CountsExact(env, g, s, files, listing);
    hide ProcessAll, Process, UpToDate, Indexable, FaultFree, Keys, Distinct, Before, IsDone, IsAnswered;
    forall i: nat | i < |listing|
      ensures IsDone(env, g, s, files, listing, i) <==> UpToDate(env, s, files, listing[i])
      ensures forall answer :: IsAnswered(env, g, s, files, listing, answer, i) <==>
                !UpToDate(env, s, files, listing[i]) && answer == Indexable(env, files, listing[i]).Some?
    {
      FaultFreeAnswer(env, g, s, files, listing, i);
    }
    assert Done(env, g, s, files, listing) == set i: nat | i < |listing| && UpToDate(env, s, files, listing[i]);
    assert Answered(env, g, s, files, listing, true) ==
           set i: nat | i < |listing| && !UpToDate(env, s, files, listing[i])
                        && Indexable(env, files, listing[i]).Some?;
    assert Answered(env, g, s, files, listing, false) ==
           set i: nat | i < |listing| && !UpToDate(env, s, files, listing[i])
                        && Indexable(env, files, listing[i]).None?;
  }

  /** The positions of the readable, non-blank files. */
  function IndexableAt(env: Env, files: map<Path, Bytes>, listing: seq<Path>): set<nat> {
    set i: nat | i < |listing| && Indexable(env, files, listing[i]).Some?
  }

  lemma {:induction false} CountIs(env: Env, files: map<Path, Bytes>, listing: seq<Path>)
    ensures CountIndexable(env, files, listing) == |IndexableAt(env, files, listing)|
    decreases |listing|
  {
    hide Indexable;
    if listing != [] {
      var n := |listing| - 1;
      CountIs(env, files, listing[..n]);
      assert IndexableAt(env, files, listing) ==
             IndexableAt(env, files, listing[..n]) + if Indexable(env, files, listing[n]).Some? then {n} else {};
    }
  }

  /** A first run without failures over distinct paths processes exactly the readable, non-blank files, skips
      none and fails on the rest. */
  lemma {:induction false} FirstRunCounts(env: Env, g: Faults, files: map<Path, Bytes>, listing: seq<Path>)
    requires FaultFree(g) && env.cfg.batchSize != 0 && Distinct(listing)
    ensures var r := ProcessAll(env, g, EMPTY_STORE, files, listing);
            && r.processed == CountIndexable(env, files, listing) && r.skipped == 0
            && r.failed == |listing| - CountIndexable(env, files, listing)
  {
    EmptyIsKeyed(env, EMPTY_STORE);
    FaultFreeCounts(env, g, EMPTY_STORE, files, listing);
    CountIs(env, files, listing);
    hide ProcessAll, Indexable;
    assert (set i: nat | i < |listing| && UpToDate(env, EMPTY_STORE, files, listing[i])) == {};
    assert IndexableAt(env, files, listing) ==
           set i: nat | i < |listing| && !UpToDate(env, EMPTY_STORE, files, listing[i])
                        && Indexable(env, files, listing[i]).Some?;
  }
}
