/** When the tracker's recommendations lead to the end, and when they stop short of it. */
module TrackerProgress {
  import opened Wrappers
  import opened Tracker

  // ----- well-formed catalogues -----

  ghost predicate DependsEarlier(cat: Catalogue) {
    forall i, d :: 0 <= i < |Items(cat)| && 0 <= d < |Items(cat)[i].task.deps| ==>
                     Items(cat)[i].task.deps[d] in Keys(Items(cat)[..i])
  }

  /** Phases have distinct ids and at least one task, the first is where the tracker starts, keys are
      distinct, and every dependency is the full key of a task earlier in the catalogue. */
  ghost predicate WellFormed(cat: Catalogue) {
    && cat != [] && cat[0].id == FIRST_PHASE
    && DistinctPhases(cat) && DistinctKeys(cat)
    && (forall k :: 0 <= k < |cat| ==> cat[k].tasks != [])
    && DependsEarlier(cat)
  }

  lemma {:induction false} FirstDot(a: string, b: string, x: string, y: string)
    requires '.' !in a && '.' !in b && Key(a, x) == Key(b, y)
    ensures a == b && x == y
    decreases |a|
  {
    assert Key(a, x)[0] == if a == "" then '.' else a[0];
    assert Key(b, y)[0] == if b == "" then '.' else b[0];
    assert (a != "" ==> a[0] in a) && (b != "" ==> b[0] in b);
    if a == "" {
      assert Key(a, x)[1..] == x && Key(b, y)[1..] == y;
    } else {
      assert Key(a, x)[1..] == Key(a[1..], x) && Key(b, y)[1..] == Key(b[1..], y);
      FirstDot(a[1..], b[1..], x, y);
      assert a == [a[0]] + a[1..] && b == [b[0]] + b[1..];
    }
  }

  /** Keys tell tasks apart when no phase id has a dot in it; the command line splits at the first dot. */
  lemma KeysTellTasksApart(x: Item, y: Item)
    requires '.' !in x.phase && '.' !in y.phase && KeyOf(x) == KeyOf(y)
    ensures x.phase == y.phase && x.task.id == y.task.id
  {
    FirstDot(x.phase, y.phase, x.task.id, y.task.id);
  }

  // ----- states reached by following recommendations -----

  lemma {:induction false} IndexOfPhase(cat: Catalogue, k: nat)
    requires DistinctPhases(cat) && k < |cat|
    ensures PhaseIndex(cat, cat[k].id) == Some(k)
  {
  }

  lemma PhaseCompleteItems(cat: Catalogue, s: State, k: nat)
    requires DistinctPhases(cat) && k < |cat|
    ensures IsPhaseComplete(cat, s, cat[k].id) <==> forall x :: x in Items(cat) && x.p == k ==> KeyOf(x) in s.completed
  {
    IndexOfPhase(cat, k);
    ItemsShape(cat, 0);
    hide ItemsFrom, PhaseIndex;
    if forall x :: x in Items(cat) && x.p == k ==> KeyOf(x) in s.completed {
      forall t | 0 <= t < |cat[k].tasks| ensures Key(cat[k].id, cat[k].tasks[t].id) in s.completed {
        assert KeyOf(Item(k, cat[k].id, cat[k].tasks[t])) in s.completed;
      }
    }
  }

  /** Phases before m are complete, phases after it untouched, and m is not complete unless it is the
      last; the current phase c is m or before it. */
  ghost predicate Frontier(cat: Catalogue, s: State, c: nat, m: nat) {
    && c <= m < |cat| && s.current == cat[c].id
    && (forall x :: x in Items(cat) && x.p < m ==> KeyOf(x) in s.completed)
    && (forall x :: x in Items(cat) && m < x.p ==> KeyOf(x) !in s.completed)
    && (m + 1 < |cat| ==> !IsPhaseComplete(cat, s, cat[m].id))
  }

  ghost predicate Reached(cat: Catalogue, s: State, c: nat) {
    Frontier(cat, s, c, c)
  }

  lemma StartReached(cat: Catalogue)
    requires WellFormed(cat)
    ensures Reached(cat, INITIAL, 0)
  {
    PhaseCompleteItems(cat, INITIAL, 0);
    ItemsShape(cat, 0);
    hide ItemsFrom, IsPhaseComplete;
    var x := Item(0, cat[0].id, cat[0].tasks[0]);
    assert x in Items(cat) && KeyOf(x) !in INITIAL.completed;
  }

  /** A recommended task belongs to the current phase. */
  lemma RecommendedIsCurrent(cat: Catalogue, s: State, c: nat, x: Item, limit: int)
    requires WellFormed(cat) && Reached(cat, s, c) && x in NextTasks(cat, s, limit)
    ensures x in Items(cat) && IsNext(cat, s, x.phase, x.task) && x.p == c
  {
    ReadyMembers(cat, s, Items(cat));
    ItemsShape(cat, 0);
    PhaseCompleteItems(cat, s, c);
    hide ItemsFrom, ReadyIn, IsPhaseComplete;
    assert x in Ready(cat, s);
    assert x.phase == s.current ==> x.p == c;
    if IsPhaseComplete(cat, s, s.current) {
      assert c + 1 == |cat|;
    }
  }

  lemma ItemIsTask(cat: Catalogue, x: Item)
    requires DistinctPhases(cat) && x in Items(cat)
    ensures HasTask(cat, x.phase, x.task.id) && x.p < |cat| && x.phase == cat[x.p].id
  {
    ItemsShape(cat, 0);
    IndexOfPhase(cat, x.p);
    var t :| 0 <= t < |cat[x.p].tasks| && cat[x.p].tasks[t] == x.task;
    assert cat[x.p].tasks[t].id == x.task.id;
  }

  lemma SameKeySameItem(cat: Catalogue, x: Item, y: Item)
    requires DistinctKeys(cat) && x in Items(cat) && y in Items(cat) && KeyOf(x) == KeyOf(y)
    ensures x == y
  {
    hide KeyOf, Items;
  }

  /** Every task of an earlier phase than the requested one is complete; a request that names no task
      is free. */
  ghost predicate InTurn(cat: Catalogue, s: State, phase: string, task: string) {
    HasTask(cat, phase, task) ==>
      forall y :: y in Items(cat) && y.p < PhaseIndex(cat, phase).value ==> KeyOf(y) in s.completed
  }

  lemma TurnItem(cat: Catalogue, s: State, c: nat, m: nat, phase: string, task: string) returns (x: Item)
    requires WellFormed(cat) && Frontier(cat, s, c, m) && InTurn(cat, s, phase, task) && HasTask(cat, phase, task)
    ensures x in Items(cat) && x.p <= m && x.phase == phase == cat[x.p].id && x.task.id == task
    ensures phase == s.current ==> x.p == c
    ensures NextPhase(cat, phase) == if x.p + 1 < |cat| then Some(cat[x.p + 1].id) else None
  {
    hide Items, KeyOf, PhaseIndex, IsPhaseComplete, HasTask, DependsEarlier, DistinctKeys;
    PhaseCompleteItems(cat, s, m);
    TaskIsItem(cat, phase, task);
    x :| x in Items(cat) && x.phase == phase && x.task.id == task;
    ItemIsTask(cat, x);
    IndexOfPhase(cat, x.p);
    IndexOfPhase(cat, c);
  }

  /** One more task of a phase up to the frontier is complete. */
  lemma TurnCompletes(cat: Catalogue, s: State, c: nat, m: nat, x: Item, s1: State)
    requires WellFormed(cat) && Frontier(cat, s, c, m) && x in Items(cat) && x.p <= m
    requires s1.completed.Keys == s.completed.Keys + {KeyOf(x)}
    ensures forall y :: y in Items(cat) && y.p < m ==> KeyOf(y) in s1.completed
    ensures forall y :: y in Items(cat) && m < y.p ==> KeyOf(y) !in s1.completed
    ensures x.p < m ==> IsPhaseComplete(cat, s1, cat[x.p].id)
    ensures IsPhaseComplete(cat, s1, cat[m].id) && m + 1 < |cat| ==> x.p == m
    ensures IsPhaseComplete(cat, s1, cat[m].id) ==>
              forall y :: y in Items(cat) && y.p < m + 1 ==> KeyOf(y) in s1.completed
  {
    hide Items, PhaseIndex, IsPhaseComplete, DependsEarlier, KeyOf;
    forall y | y in Items(cat) && m < y.p ensures KeyOf(y) !in s1.completed {
      if KeyOf(y) == KeyOf(x) { SameKeySameItem(cat, x, y); }
    }
    PhaseCompleteItems(cat, s1, x.p);
    PhaseCompleteItems(cat, s1, m);
    PhaseCompleteItems(cat, s, m);
  }

  /** Completing a task in its turn reaches a frontier again. */
  lemma TurnStep(cat: Catalogue, s: State, c: nat, m: nat, phase: string, task: string, text: string)
    returns (c': nat, m': nat)
    requires WellFormed(cat) && Frontier(cat, s, c, m) && InTurn(cat, s, phase, task)
    ensures Frontier(cat, Complete(cat, s, phase, task, text).0, c', m')
    ensures c == m && phase == s.current ==> c' == m'
  {
    hide Items, NextPhase, IsPhaseComplete, HasTask, DependsEarlier, DistinctKeys, InTurn;
    c', m' := c, m;
    if HasTask(cat, phase, task) {
      var x := TurnItem(cat, s, c, m, phase, task);
      var s1 := s.(completed := s.completed[KeyOf(x) := text],
                   notes := if text != "" then s.notes[KeyOf(x) := text] else s.notes);
      TurnCompletes(cat, s, c, m, x, s1);
      SameCompleted(cat, s1);
      if IsPhaseComplete(cat, s1, phase) && x.p + 1 < |cat| {
        c' := x.p + 1;
        if x.p == m {
          m' := c';
          FreshPhase(cat, s1, c');
        }
      }
    }
  }

  /** Completing a recommended task completes one more key and reaches such a state again. */
  lemma GuidedStep(cat: Catalogue, s: State, c: nat, x: Item, limit: int, text: string) returns (c': nat)
    requires WellFormed(cat) && Reached(cat, s, c) && x in NextTasks(cat, s, limit)
    ensures var (s', ok) := Complete(cat, s, x.phase, x.task.id, text);
            ok && Reached(cat, s', c') && |s'.completed| == |s.completed| + 1
    ensures InTurn(cat, s, x.phase, x.task.id)
  {
    hide Items, PhaseIndex, IsPhaseComplete, HasTask, WellFormed, NextTasks;
    RecommendedIsCurrent(cat, s, c, x, limit);
    ItemInTurn(cat, s, c, x);
    var m';
    c', m' := TurnStep(cat, s, c, c, x.phase, x.task.id, text);
  }

  lemma ItemInTurn(cat: Catalogue, s: State, c: nat, x: Item)
    requires WellFormed(cat) && Reached(cat, s, c) && x in Items(cat) && x.p == c
    ensures HasTask(cat, x.phase, x.task.id) && x.phase == s.current && InTurn(cat, s, x.phase, x.task.id)
  {
    ItemIsTask(cat, x);
    IndexOfPhase(cat, c);
    hide Items, PhaseIndex, IsPhaseComplete, HasTask;
  }

  lemma FreshPhase(cat: Catalogue, s: State, c: nat)
    requires WellFormed(cat) && c < |cat|
    requires forall y :: y in Items(cat) && c <= y.p ==> KeyOf(y) !in s.completed
    ensures !IsPhaseComplete(cat, s, cat[c].id)
  {
    PhaseCompleteItems(cat, s, c);
    ItemsShape(cat, 0);
    hide ItemsFrom, IsPhaseComplete;
    var y := Item(c, cat[c].id, cat[c].tasks[0]);
    assert y in Items(cat) && KeyOf(y) !in s.completed;
  }

  // ----- the first open task -----

  /** Every task before position i is complete and the one at i is not. */
  ghost predicate FirstOpen(cat: Catalogue, s: State, i: nat) {
    && i < |Items(cat)| && KeyOf(Items(cat)[i]) !in s.completed
    && forall j :: 0 <= j < i ==> KeyOf(Items(cat)[j]) in s.completed
  }

  lemma NotAllBelow(cat: Catalogue, s: State, n: nat)
    requires n <= |Items(cat)| && forall j :: 0 <= j < n ==> KeyOf(Items(cat)[j]) in s.completed
    requires !AllDone(cat, s)
    ensures n < |Items(cat)|
  {
    hide Items, KeyOf;
  }

  lemma {:induction false} FindOpen(cat: Catalogue, s: State, n: nat) returns (i: nat)
    requires n <= |Items(cat)| && forall j :: 0 <= j < n ==> KeyOf(Items(cat)[j]) in s.completed
    requires !AllDone(cat, s)
    ensures FirstOpen(cat, s, i)
    decreases |Items(cat)| - n
  {
    hide Items, KeyOf;
    NotAllBelow(cat, s, n);
    if KeyOf(Items(cat)[n]) in s.completed {
      i := FindOpen(cat, s, n + 1);
    } else {
      i := n;
    }
  }

  /** Its dependencies are met, since they come before it. */
  lemma FirstOpenDepsMet(cat: Catalogue, s: State, i: nat)
    requires DependsEarlier(cat) && FirstOpen(cat, s, i)
    ensures DepsMet(s, Items(cat)[i].task)
  {
    hide Items, KeyOf;
  }

  lemma NextEmpty(cat: Catalogue, s: State, limit: int)
    ensures NextTasks(cat, s, limit) == [] <==> forall x :: x in Items(cat) ==> !IsNext(cat, s, x.phase, x.task)
  {
    ReadyMembers(cat, s, Items(cat));
    hide IsNext, Items, ReadyIn;
    if Ready(cat, s) != [] {
      assert Ready(cat, s)[0] in Ready(cat, s);
    }
  }

  /** From any state at all, nothing is recommended exactly when everything is done, or the current
      phase is unfinished and each of its open tasks waits for some dependency. */
  lemma StuckExactly(cat: Catalogue, s: State, limit: int)
    requires WellFormed(cat)
    ensures NextTasks(cat, s, limit) == [] <==>
            || AllDone(cat, s)
            || (&& !IsPhaseComplete(cat, s, s.current)
                && forall x :: x in Items(cat) && x.phase == s.current && KeyOf(x) !in s.completed ==>
                                 !DepsMet(s, x.task))
  {
    NextEmpty(cat, s, limit);
    hide Items, IsPhaseComplete, DepsMet, NextTasks;
    if !AllDone(cat, s) && IsPhaseComplete(cat, s, s.current) {
      var i := FindOpen(cat, s, 0);
      FirstOpenDepsMet(cat, s, i);
      var x := Items(cat)[i];
      assert x in Items(cat) && IsNext(cat, s, x.phase, x.task);
    }
  }

  lemma EarlierPhaseDone(cat: Catalogue, s: State, i: nat, c: nat)
    requires FirstOpen(cat, s, i)
    ensures c < Items(cat)[i].p ==> forall y :: y in Items(cat) && y.p == c ==> KeyOf(y) in s.completed
  {
    ItemsShape(cat, 0);
    hide ItemsFrom, KeyOf;
    forall y | c < Items(cat)[i].p && y in Items(cat) && y.p == c ensures KeyOf(y) in s.completed {
      var j :| 0 <= j < |Items(cat)| && Items(cat)[j] == y;
    }
  }

  lemma FrontierNotStuck(cat: Catalogue, s: State, c: nat, m: nat, limit: int)
    requires WellFormed(cat) && Frontier(cat, s, c, m)
    ensures NextTasks(cat, s, limit) == [] <==> AllDone(cat, s)
  {
    NextEmpty(cat, s, limit);
    if !AllDone(cat, s) {
      var i := FindOpen(cat, s, 0);
      FirstOpenDepsMet(cat, s, i);
      var x := Items(cat)[i];
      assert x in Items(cat);
      ItemIsTask(cat, x);
      PhaseCompleteItems(cat, s, c);
      PhaseCompleteItems(cat, s, m);
      hide ItemsFrom, IsPhaseComplete, DepsMet, NextTasks;
      EarlierPhaseDone(cat, s, i, m);
      assert IsNext(cat, s, x.phase, x.task);
    }
  }

  // ----- runs in which every phase waits for the ones before it -----

  /** Tasks are completed in any order within a phase, ready or not, and again once complete, but none
      while a task of an earlier phase is open. */
  ghost predicate Orderly(cat: Catalogue, requests: seq<Request>) {
    requests == [] ||
    (var before, r := requests[..|requests| - 1], requests[|requests| - 1];
     Orderly(cat, before) && InTurn(cat, Run(cat, before), r.phase, r.task))
  }

  lemma {:induction false} OrderlyReaches(cat: Catalogue, requests: seq<Request>) returns (c: nat, m: nat)
    requires WellFormed(cat) && Orderly(cat, requests)
    ensures Frontier(cat, Run(cat, requests), c, m)
    decreases |requests|
  {
    hide WellFormed, Frontier, Complete, InTurn;
    if requests == [] {
      StartReached(cat);
      c, m := 0, 0;
      assert Frontier(cat, INITIAL, 0, 0);
    } else {
      var before, r := requests[..|requests| - 1], requests[|requests| - 1];
      c, m := OrderlyReaches(cat, before);
      c, m := TurnStep(cat, Run(cat, before), c, m, r.phase, r.task, r.text);
    }
  }

  /** Such a run never gets stuck on a well-formed catalogue, whatever the dependencies say. */
  lemma {:induction false} OrderlyNeverStuck(cat: Catalogue, requests: seq<Request>, limit: int)
    requires WellFormed(cat) && Orderly(cat, requests)
    ensures NextTasks(cat, Run(cat, requests), limit) == [] <==> AllDone(cat, Run(cat, requests))
  {
    hide WellFormed, Frontier, Run, NextTasks, AllDone;
    var c, m := OrderlyReaches(cat, requests);
    FrontierNotStuck(cat, Run(cat, requests), c, m, limit);
  }

  // ----- runs that follow recommendations -----

  /** Someone asks for recommendations with some limit and completes one of them. */
  datatype Choice = Choice(item: Item, limit: int, text: string)

  function Requests(choices: seq<Choice>): seq<Request> {
    if choices == [] then []
    else
      var c := choices[|choices| - 1];
      Requests(choices[..|choices| - 1]) + [Request(c.item.phase, c.item.task.id, c.text)]
  }

  predicate Guided(cat: Catalogue, choices: seq<Choice>) {
    choices == [] ||
    (var before, c := choices[..|choices| - 1], choices[|choices| - 1];
     Guided(cat, before) && c.item in NextTasks(cat, Run(cat, Requests(before)), c.limit))
  }

  lemma {:induction false} GuidedReaches(cat: Catalogue, choices: seq<Choice>) returns (c: nat)
    requires WellFormed(cat) && Guided(cat, choices)
    ensures Reached(cat, Run(cat, Requests(choices)), c)
    ensures |Run(cat, Requests(choices)).completed| == |choices|
    ensures Orderly(cat, Requests(choices))
    decreases |choices|
  {
    hide WellFormed, Reached, NextTasks, Complete, InTurn;
    if choices == [] {
      StartReached(cat);
      c := 0;
    } else {
      var before, last := choices[..|choices| - 1], choices[|choices| - 1];
      var c0 := GuidedReaches(cat, before);
      c := GuidedStep(cat, Run(cat, Requests(before)), c0, last.item, last.limit, last.text);
      var request := Request(last.item.phase, last.item.task.id, last.text);
      assert Requests(choices) == Requests(before) + [request];
      assert (Requests(before) + [request])[..|Requests(before)|] == Requests(before);
    }
  }

  /** On a well-formed catalogue a run that completes only recommended tasks never gets stuck: after
      any number of choices, whatever the limit, nothing is recommended exactly when every task is
      done, and that is after exactly as many choices as there are tasks. */
  lemma FollowingRecommendations(cat: Catalogue, choices: seq<Choice>, limit: int)
    requires WellFormed(cat) && Guided(cat, choices)
    ensures var s := Run(cat, Requests(choices));
            && |choices| <= |Items(cat)|
            && (NextTasks(cat, s, limit) == [] <==> AllDone(cat, s))
            && (AllDone(cat, s) <==> |choices| == |Items(cat)|)
  {
    var s := Run(cat, Requests(choices));
    var c := GuidedReaches(cat, choices);
    FrontierNotStuck(cat, s, c, c, limit);
    RunInvariant(cat, Requests(choices));
    hide Run, Requests, Items, NextTasks, AllDone, KeyOf, Reached, CurrentFollows;
    AllDoneKeys(cat, s);
    KeysSize(Items(cat));
    assert |s.completed| == |s.completed.Keys|;
    Within(s.completed.Keys, Keys(Items(cat)));
  }

  // ----- a run that does not follow them -----

  /** Three phases of one task; the last task depends on the first. */
  function SmallCatalogue(): Catalogue {
    [Phase(FIRST_PHASE, [Task("a", [])]), Phase("p2", [Task("b", [])]), Phase("p3", [Task("c", [FIRST_PHASE + ".a"])])]
  }

  /** Completing the second phase first moves the tracker to the third, whose only task waits for the
      first phase; the first phase is no longer recommended, and the tracker reports that all is done. */
  lemma OutOfOrderStuck()
    ensures WellFormed(SmallCatalogue())
    ensures var s := Run(SmallCatalogue(), [Request("p2", "b", "")]);
            s.current == "p3" && NextTasks(SmallCatalogue(), s, 3) == [] && !AllDone(SmallCatalogue(), s)
  {
    var cat, s := SmallCatalogue(), AfterB();
    SmallRun();
    SmallItems();
    PhaseThreeOpen();
    SmallWellFormed();
    hide WellFormed, Run, Items, IsPhaseComplete;
    NextEmpty(cat, s, 3);
    assert Item(0, FIRST_PHASE, Task("a", [])) in Items(cat);
    var last := Task("c", [FIRST_PHASE + ".a"]);
    assert last.deps[0] !in s.completed;
  }

  function AfterB(): State {
    State(map["p2.b" := ""], "p3", map[])
  }

  lemma SmallPhases()
    ensures DistinctPhases(SmallCatalogue())
    ensures PhaseIndex(SmallCatalogue(), "p2") == Some(1) && PhaseIndex(SmallCatalogue(), "p3") == Some(2)
  {
  }

  lemma SmallRun()
    ensures Run(SmallCatalogue(), [Request("p2", "b", "")]) == AfterB()
  {
    var cat, requests := SmallCatalogue(), [Request("p2", "b", "")];
    SmallPhases();
    hide SmallCatalogue, PhaseIndex;
    assert requests[..0] == [] && Run(cat, []) == INITIAL;
    assert Key("p2", "b") == "p2.b";
    SmallTask();
    SmallComplete();
  }

  lemma SmallTask()
    ensures HasTask(SmallCatalogue(), "p2", "b") && NextPhase(SmallCatalogue(), "p2") == Some("p3")
  {
    SmallPhases();
    hide PhaseIndex;
    assert SmallCatalogue()[1].tasks[0].id == "b";
  }

  lemma SmallComplete()
    ensures IsPhaseComplete(SmallCatalogue(), State(map["p2.b" := ""], FIRST_PHASE, map[]), "p2")
  {
    SmallPhases();
    hide PhaseIndex;
    assert Key("p2", "b") == "p2.b";
  }

  lemma PhaseThreeOpen()
    ensures !IsPhaseComplete(SmallCatalogue(), AfterB(), "p3")
  {
    SmallPhases();
    hide PhaseIndex;
    assert Key("p3", "c") == "p3.c";
    assert SmallCatalogue()[2].tasks[0].id == "c";
  }

  lemma SmallWellFormed()
    ensures WellFormed(SmallCatalogue())
  {
    var cat := SmallCatalogue();
    SmallPhases();
    SmallItems();
    hide Items, DistinctPhases;
    assert Items(cat)[0] in Items(cat)[..2] && KeyOf(Items(cat)[0]) == FIRST_PHASE + ".a";
    assert KeyOf(Items(cat)[2])[1] == '3' && KeyOf(Items(cat)[1])[1] == '2' && KeyOf(Items(cat)[0])[1] == 'h';
  }

  lemma SmallItems()
    ensures Items(SmallCatalogue()) ==
            [Item(0, FIRST_PHASE, Task("a", [])), Item(1, "p2", Task("b", [])),
             Item(2, "p3", Task("c", [FIRST_PHASE + ".a"]))]
    ensures Key(FIRST_PHASE, "a") !in AfterB().completed && FIRST_PHASE + ".a" !in AfterB().completed
    ensures Key("p2", "b") in AfterB().completed && FIRST_PHASE != "p3"
  {
    var cat := SmallCatalogue();
    assert ItemsFrom(cat, 3) == [];
    assert ItemsFrom(cat, 2) == [Item(2, "p3", cat[2].tasks[0])];
    assert ItemsFrom(cat, 1) == [Item(1, "p2", cat[1].tasks[0])] + ItemsFrom(cat, 2);
    assert ItemsFrom(cat, 0) == [Item(0, FIRST_PHASE, cat[0].tasks[0])] + ItemsFrom(cat, 1);
    assert Key(FIRST_PHASE, "a")[1] == 'h' && Key("p2", "b") == "p2.b" && FIRST_PHASE[1] == 'h';
  }
}
