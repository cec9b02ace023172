/** The task tracker: recommended tasks, completion, phase advance, progress. */
module Tracker {
  import opened Wrappers

  datatype Task = Task(id: string, deps: seq<string>)

  datatype Phase = Phase(id: string, tasks: seq<Task>)

  /** The table of tasks; a dictionary keeps its insertion order. */
  type Catalogue = seq<Phase>

  /** The state file: completion notes by task key, the current phase, and the non-empty notes. */
  datatype State = State(completed: map<string, string>, current: string, notes: map<string, string>)

  const FIRST_PHASE: string := "phase1_foundation"
  const INITIAL: State := State(map[], FIRST_PHASE, map[])

  function Key(phase: string, task: string): string {
    phase + "." + task
  }

  // ----- tasks in catalogue order -----

  /** A task with the position and the id of its phase. */
  datatype Item = Item(p: nat, phase: string, task: Task)

  function KeyOf(x: Item): string {
    Key(x.phase, x.task.id)
  }

  function PhaseItems(phase: Phase, p: nat): (r: seq<Item>)
    ensures |r| == |phase.tasks| && forall t :: 0 <= t < |r| ==> r[t] == Item(p, phase.id, phase.tasks[t])
  {
    seq(|phase.tasks|, t requires 0 <= t < |phase.tasks| => Item(p, phase.id, phase.tasks[t]))
  }

  function ItemsFrom(cat: Catalogue, p: nat): seq<Item>
    requires p <= |cat|
    decreases |cat| - p
  {
    if p == |cat| then [] else PhaseItems(cat[p], p) + ItemsFrom(cat, p + 1)
  }

  function Items(cat: Catalogue): seq<Item> {
    ItemsFrom(cat, 0)
  }

  lemma {:induction false} ItemsShape(cat: Catalogue, p: nat)
    requires p <= |cat|
    ensures forall x :: x in ItemsFrom(cat, p) <==>
                          p <= x.p < |cat| && x.phase == cat[x.p].id && x.task in cat[x.p].tasks
    ensures forall i, j :: 0 <= i < j < |ItemsFrom(cat, p)| ==> ItemsFrom(cat, p)[i].p <= ItemsFrom(cat, p)[j].p
    decreases |cat| - p
  {
    if p < |cat| {
      ItemsShape(cat, p + 1);
      var first, rest := PhaseItems(cat[p], p), ItemsFrom(cat, p + 1);
      forall x: Item | x.p == p && x.phase == cat[p].id && x.task in cat[p].tasks ensures x in first {
        var t :| 0 <= t < |cat[p].tasks| && cat[p].tasks[t] == x.task;
        assert first[t] == x;
      }
      forall i, j | 0 <= i < j < |first + rest| ensures (first + rest)[i].p <= (first + rest)[j].p {
        if j >= |first| { assert (first + rest)[j] in rest; }
      }
    }
  }

  // ----- is_phase_complete, is_next_task, get_next_phase -----

  /** Position of the phase with this id. */
  function PhaseIndex(cat: Catalogue, id: string): (r: Option<nat>)
    ensures r.Some? ==> r.value < |cat| && cat[r.value].id == id
    ensures r.None? ==> forall k :: 0 <= k < |cat| ==> cat[k].id != id
  {
    if cat == [] then None
    else if cat[0].id == id then Some(0)
    else match PhaseIndex(cat[1..], id)
      case None => None
      case Some(k) => assert cat[1..][k] == cat[k + 1]; Some(k + 1)
  }

  predicate IsPhaseComplete(cat: Catalogue, s: State, id: string) {
    var k := PhaseIndex(cat, id);
    k.Some? && forall t :: 0 <= t < |cat[k.value].tasks| ==> Key(id, cat[k.value].tasks[t].id) in s.completed
  }

  predicate DepsMet(s: State, task: Task) {
    forall d :: 0 <= d < |task.deps| ==> task.deps[d] in s.completed
  }

  predicate IsNext(cat: Catalogue, s: State, phase: string, task: Task) {
    && DepsMet(s, task)
    && Key(phase, task.id) !in s.completed
    && (phase == s.current || IsPhaseComplete(cat, s, s.current))
  }

  function NextPhase(cat: Catalogue, id: string): Option<string> {
    var k := PhaseIndex(cat, id);
    if k.Some? && k.value + 1 < |cat| then Some(cat[k.value + 1].id) else None
  }

  predicate HasTask(cat: Catalogue, phase: string, task: string) {
    var k := PhaseIndex(cat, phase);
    k.Some? && exists t :: 0 <= t < |cat[k.value].tasks| && cat[k.value].tasks[t].id == task
  }

  /** The recommended tasks among some items. */
  function ReadyIn(cat: Catalogue, s: State, items: seq<Item>): seq<Item> {
    if items == [] then []
    else (if IsNext(cat, s, items[0].phase, items[0].task) then [items[0]] else []) + ReadyIn(cat, s, items[1..])
  }

  function Ready(cat: Catalogue, s: State): seq<Item> {
    ReadyIn(cat, s, Items(cat))
  }

  /** The first max(1, limit) recommended tasks in catalogue order. */
  function NextTasks(cat: Catalogue, s: State, limit: int): seq<Item> {
    var ready, n := Ready(cat, s), if limit > 1 then limit else 1;
    if n < |ready| then ready[..n] else ready
  }

  function AfterCompletion(cat: Catalogue, s: State, phase: string, task: string, text: string): State {
    var key := Key(phase, task);
    var s1 := s.(completed := s.completed[key := text], notes := if text != "" then s.notes[key := text] else s.notes);
    var next := NextPhase(cat, phase);
    if IsPhaseComplete(cat, s1, phase) && next.Some? then s1.(current := next.value) else s1
  }

  function Complete(cat: Catalogue, s: State, phase: string, task: string, text: string): (State, bool) {
    if HasTask(cat, phase, task) then (AfterCompletion(cat, s, phase, task, text), true) else (s, false)
  }

  // ----- what is recommended and what completing does, written out -----

  /** The phase with this id is at position k. Ids are the keys of a dictionary, so there is one at most. */
  ghost predicate PhaseAt(cat: Catalogue, id: string, k: int) {
    0 <= k < |cat| && cat[k].id == id && forall j :: 0 <= j < k ==> cat[j].id != id
  }

  ghost predicate PhaseDone(cat: Catalogue, completed: map<string, string>, id: string) {
    exists k :: PhaseAt(cat, id, k) && forall task :: task in cat[k].tasks ==> id + "." + task.id in completed
  }

  /** All dependencies are complete, the task is not, and its phase is the current one or the current one is
      done. */
  ghost predicate Eligible(cat: Catalogue, s: State, x: Item) {
    && (forall d :: d in x.task.deps ==> d in s.completed)
    && x.phase + "." + x.task.id !in s.completed
    && (x.phase == s.current || PhaseDone(cat, s.completed, s.current))
  }

  /** `out` is the first max(1, limit) eligible tasks of the catalogue: they are its tasks at the increasing
      positions ps, all of these are eligible, and any other eligible task comes after a full answer. */
  ghost predicate FirstEligible(cat: Catalogue, s: State, limit: int, out: seq<Item>, ps: seq<nat>) {
    var items, most := Items(cat), if limit > 1 then limit else 1;
    && |out| == |ps| <= most
    && (forall i :: 0 <= i < |ps| ==> ps[i] < |items| && out[i] == items[ps[i]] && Eligible(cat, s, items[ps[i]]))
    && (forall i, j :: 0 <= i < j < |ps| ==> ps[i] < ps[j])
    && (forall p :: 0 <= p < |items| && Eligible(cat, s, items[p]) && p !in ps ==>
                      |ps| == most && forall i :: 0 <= i < |ps| ==> ps[i] < p)
  }

  ghost predicate AreFirstEligible(cat: Catalogue, s: State, limit: int, out: seq<Item>) {
    exists ps :: FirstEligible(cat, s, limit, out, ps)
  }

  lemma {:induction false} PhaseAtIndex(cat: Catalogue, id: string)
    ensures forall k :: PhaseAt(cat, id, k) <==> PhaseIndex(cat, id).Some? && PhaseIndex(cat, id).value == k
  {
    if cat != [] {
      PhaseAtIndex(cat[1..], id);
      forall k ensures PhaseAt(cat, id, k) <==> PhaseIndex(cat, id).Some? && PhaseIndex(cat, id).value == k {
        assert cat[0].id != id ==> (PhaseAt(cat, id, k) <==> PhaseAt(cat[1..], id, k - 1)) by {
          forall j | 0 < j < |cat| ensures cat[1..][j - 1] == cat[j] {}
        }
      }
    }
  }

  lemma DoneIsComplete(cat: Catalogue, s: State, id: string)
    ensures PhaseDone(cat, s.completed, id) <==> IsPhaseComplete(cat, s, id)
  {
    PhaseAtIndex(cat, id);
    hide PhaseIndex, PhaseAt;
  }

  lemma EligibleIsNext(cat: Catalogue, s: State, x: Item)
    ensures Eligible(cat, s, x) <==> IsNext(cat, s, x.phase, x.task)
  {
    DoneIsComplete(cat, s, s.current);
    hide PhaseDone, IsPhaseComplete;
  }

  /** The positions of the eligible ones among some items. */
  lemma {:induction false} ReadyPositions(cat: Catalogue, s: State, items: seq<Item>) returns (ps: seq<nat>)
    ensures |ps| == |ReadyIn(cat, s, items)|
    ensures forall i :: 0 <= i < |ps| ==> ps[i] < |items| && ReadyIn(cat, s, items)[i] == items[ps[i]]
    ensures forall i, j :: 0 <= i < j < |ps| ==> ps[i] < ps[j]
    ensures forall p :: 0 <= p < |items| ==> (p in ps <==> Eligible(cat, s, items[p]))
  {
    hide Eligible, IsNext;
    if items == [] {
      ps := [];
    } else {
      var n := |items| - 1;
      ps := ReadyPositions(cat, s, items[..n]);
      ReadySnoc(cat, s, items[..n], items[n]);
      EligibleIsNext(cat, s, items[n]);
      assert items == items[..n] + [items[n]];
      if IsNext(cat, s, items[n].phase, items[n].task) { ps := ps + [n]; }
    }
  }

  lemma {:induction false} ReadySnoc(cat: Catalogue, s: State, items: seq<Item>, x: Item)
    ensures ReadyIn(cat, s, items + [x]) == ReadyIn(cat, s, items) + if IsNext(cat, s, x.phase, x.task) then [x] else []
  {
    hide IsNext;
    if items == [] {
      assert items + [x] == [x] && [x][1..] == [];
    } else {
      ReadySnoc(cat, s, items[1..], x);
      assert (items + [x])[1..] == items[1..] + [x];
    }
  }

  /** The recommendations are exactly the first max(1, limit) eligible tasks. */
  lemma {:induction false} NextTasksExactly(cat: Catalogue, s: State, limit: int)
    ensures AreFirstEligible(cat, s, limit, NextTasks(cat, s, limit))
  {
    hide Items, Eligible, ReadyIn;
    var all := ReadyPositions(cat, s, Items(cat));
    var most := if limit > 1 then limit else 1;
    var ps := if most < |all| then all[..most] else all;
    assert forall i :: 0 <= i < |ps| ==> all[i] == ps[i];
    forall p | 0 <= p < |Items(cat)| && Eligible(cat, s, Items(cat)[p]) && p !in ps
      ensures |ps| == most && forall i :: 0 <= i < |ps| ==> ps[i] < p
    {
      var j :| 0 <= j < |all| && all[j] == p;
    }
    assert FirstEligible(cat, s, limit, NextTasks(cat, s, limit), ps);
  }

  /** Completing a known task records its note and, when its phase is then done, moves on to the next phase
      if there is one; an unknown task changes nothing. */
  lemma {:induction false} CompletionExact(cat: Catalogue, s: State, phase: string, task: string, text: string)
    ensures var (s', ok) := Complete(cat, s, phase, task, text);
            var key := phase + "." + task;
            && (ok <==> exists k, t :: PhaseAt(cat, phase, k) && 0 <= t < |cat[k].tasks| && cat[k].tasks[t].id == task)
            && (!ok ==> s' == s)
            && (ok ==> && s'.completed == s.completed[key := text]
                       && s'.notes == if text != "" then s.notes[key := text] else s.notes)
            && (ok ==> forall k :: PhaseAt(cat, phase, k) ==>
                                     s'.current == if PhaseDone(cat, s'.completed, phase) && k + 1 < |cat|
                                                   then cat[k + 1].id else s.current)
  {
    PhaseAtIndex(cat, phase);
    var (s', ok) := Complete(cat, s, phase, task, text);
    DoneIsComplete(cat, s', phase);
    SameCompleted(cat, s');
    hide PhaseIndex, PhaseAt, PhaseDone, IsPhaseComplete;
  }

  // ----- the tracker -----

  class TaskTracker {
    const tasks: Catalogue
    var completed: map<string, string>
    var current: string
    var notes: map<string, string>

    /** The state is what `load_state` returns: the state file if there is one, else the default. */
    constructor (tasks: Catalogue, file: Option<State>)
      ensures this.tasks == tasks
      ensures Snapshot() == match file case Some(found) => found case None => State(map[], "phase1_foundation", map[])
    {
      this.tasks := tasks;
      var state := match file case Some(found) => found case None => INITIAL;
      completed, current, notes := state.completed, state.current, state.notes;
    }

    function Snapshot(): State
      reads this
    {
      State(completed, current, notes)
    }

    method CompleteTask(phase: string, task: string, text: string) returns (ok: bool)
      modifies this
      ensures (Snapshot(), ok) == Complete(tasks, old(Snapshot()), phase, task, text)
    {
      if !HasTask(tasks, phase, task) {
        return false;
      }
      var taskKey := Key(phase, task);
      completed := completed[taskKey := text];
      if text != "" {
        notes := notes[taskKey := text];
      }
      if IsPhaseComplete(tasks, Snapshot(), phase) {
        var nextPhase := NextPhase(tasks, phase);
        if nextPhase.Some? {
          current := nextPhase.value;
        }
      }
      return true;
    }

    method GetNextTasks(limit: int) returns (nextTasks: seq<Item>)
      ensures nextTasks == NextTasks(tasks, Snapshot(), limit)
      ensures AreFirstEligible(tasks, Snapshot(), limit, nextTasks)
    {
      NextTasksExactly(tasks, Snapshot(), limit);
      hide IsNext, ReadyIn, ItemsFrom, AreFirstEligible;
      nextTasks := [];
      for p := 0 to |tasks|
        invariant nextTasks == [] || |nextTasks| < limit
        invariant nextTasks + ReadyIn(tasks, Snapshot(), ItemsFrom(tasks, p)) == Ready(tasks, Snapshot())
      {
        var phase := tasks[p];
        ghost var items, rest := PhaseItems(phase, p), ItemsFrom(tasks, p + 1);
        NextPhaseItems(tasks, p);
        for t := 0 to |phase.tasks|
          invariant nextTasks == [] || |nextTasks| < limit
          invariant nextTasks + ReadyIn(tasks, Snapshot(), items[t..] + rest) == Ready(tasks, Snapshot())
        {
          var task := phase.tasks[t];
          assert items[t..] + rest == [Item(p, phase.id, task)] + (items[t + 1..] + rest);
          ReadyCons(tasks, Snapshot(), Item(p, phase.id, task), items[t + 1..] + rest);
          if IsNext(tasks, Snapshot(), phase.id, task) {
            nextTasks := nextTasks + [Item(p, phase.id, task)];
            if |nextTasks| >= limit {
              return;
            }
          }
        }
        assert items[|phase.tasks|..] + rest == rest;
      }
      NextPhaseItems(tasks, |tasks|);
      ReadyNone(tasks, Snapshot());
    }
  }

  lemma NextPhaseItems(cat: Catalogue, p: nat)
    requires p <= |cat|
    ensures ItemsFrom(cat, p) == if p == |cat| then [] else PhaseItems(cat[p], p)[0..] + ItemsFrom(cat, p + 1)
  {
  }

  lemma ReadyCons(cat: Catalogue, s: State, x: Item, rest: seq<Item>)
    ensures ReadyIn(cat, s, [x] + rest) ==
            (if IsNext(cat, s, x.phase, x.task) then [x] else []) + ReadyIn(cat, s, rest)
  {
    hide IsNext;
  }

  lemma ReadyNone(cat: Catalogue, s: State)
    ensures ReadyIn(cat, s, []) == []
  {
  }

  // ----- every run -----

  /** A request to complete a task, in any order and possibly unknown to the catalogue. */
  datatype Request = Request(phase: string, task: string, text: string)

  function Run(cat: Catalogue, requests: seq<Request>): State {
    if requests == [] then INITIAL
    else
      var r := requests[|requests| - 1];
      Complete(cat, Run(cat, requests[..|requests| - 1]), r.phase, r.task, r.text).0
  }

  function Keys(items: seq<Item>): set<string> {
    set x | x in items :: KeyOf(x)
  }

  ghost predicate DistinctPhases(cat: Catalogue) {
    forall j, k :: 0 <= j < k < |cat| ==> cat[j].id != cat[k].id
  }

  /** The current phase is the first one or directly follows a complete one. */
  ghost predicate CurrentFollows(cat: Catalogue, s: State) {
    || s.current == FIRST_PHASE
    || exists j, k :: 0 <= j < k < |cat| && k == j + 1 && s.current == cat[k].id && IsPhaseComplete(cat, s, cat[j].id)
  }

  ghost predicate TrackerInv(cat: Catalogue, s: State) {
    s.completed.Keys <= Keys(Items(cat)) && s.notes.Keys <= s.completed.Keys && CurrentFollows(cat, s)
  }

  lemma TaskIsItem(cat: Catalogue, phase: string, task: string)
    requires HasTask(cat, phase, task)
    ensures exists x :: x in Items(cat) && x.phase == phase && x.task.id == task
  {
    var k := PhaseIndex(cat, phase).value;
    var t :| 0 <= t < |cat[k].tasks| && cat[k].tasks[t].id == task;
    ItemsShape(cat, 0);
    assert Item(k, phase, cat[k].tasks[t]) in Items(cat);
  }

  lemma CompletionGrows(cat: Catalogue, s: State, id: string, key: string, text: string)
    ensures var s' := s.(completed := s.completed[key := text]);
            IsPhaseComplete(cat, s, id) ==> IsPhaseComplete(cat, s', id)
  {
  }

  /** Completing any task keeps the invariant and all earlier completions. */
  lemma CompleteKeepsInv(cat: Catalogue, s: State, phase: string, task: string, text: string)
    requires TrackerInv(cat, s)
    ensures var (s', ok) := Complete(cat, s, phase, task, text);
            && TrackerInv(cat, s') && s.completed.Keys <= s'.completed.Keys
            && (ok <==> HasTask(cat, phase, task))
            && (ok ==> s'.completed == s.completed[Key(phase, task) := text])
  {
    hide HasTask, Items, PhaseIndex;
    if HasTask(cat, phase, task) {
      TaskIsItem(cat, phase, task);
      var key := Key(phase, task);
      var s' := AfterCompletion(cat, s, phase, task, text);
      assert key in Keys(Items(cat)) by {
        var x :| x in Items(cat) && x.phase == phase && x.task.id == task;
        assert KeyOf(x) == key;
      }
      var k := PhaseIndex(cat, phase);
      SameCompleted(cat, s');
      forall id | IsPhaseComplete(cat, s, id) ensures IsPhaseComplete(cat, s', id) {
        CompletionGrows(cat, s, id, key, text);
      }
      if s'.current != s.current {
        assert s'.current == cat[k.value + 1].id && IsPhaseComplete(cat, s', cat[k.value].id);
      }
    }
  }

  lemma SameCompleted(cat: Catalogue, s: State)
    ensures forall s': State, id :: s'.completed == s.completed ==>
              (IsPhaseComplete(cat, s', id) <==> IsPhaseComplete(cat, s, id))
  {
  }

  /** After any requests in any order: only tasks of the catalogue are complete, and the current phase
      is the first or directly follows a complete phase. */
  lemma {:induction false} RunInvariant(cat: Catalogue, requests: seq<Request>)
    ensures TrackerInv(cat, Run(cat, requests))
    decreases |requests|
  {
    hide Complete, TrackerInv;
    if requests == [] {
      assert TrackerInv(cat, INITIAL) by { NothingDone(cat); }
    } else {
      var r := requests[|requests| - 1];
      RunInvariant(cat, requests[..|requests| - 1]);
      CompleteKeepsInv(cat, Run(cat, requests[..|requests| - 1]), r.phase, r.task, r.text);
    }
  }

  lemma NothingDone(cat: Catalogue)
    ensures TrackerInv(cat, INITIAL)
  {
  }

  /** A task with a dependency that is not the full key of a task is never recommended. */
  lemma UnknownDependencyBlocks(cat: Catalogue, requests: seq<Request>, x: Item, d: nat, limit: int)
    requires x in Items(cat) && d < |x.task.deps| && x.task.deps[d] !in Keys(Items(cat))
    ensures x !in NextTasks(cat, Run(cat, requests), limit)
  {
    RunInvariant(cat, requests);
    hide Run, Items;
    ReadyMembers(cat, Run(cat, requests), Items(cat));
  }

  lemma {:induction false} ReadyMembers(cat: Catalogue, s: State, items: seq<Item>)
    ensures forall x :: x in ReadyIn(cat, s, items) <==> x in items && IsNext(cat, s, x.phase, x.task)
  {
    hide IsNext;
    if items != [] {
      ReadyMembers(cat, s, items[1..]);
      assert items == [items[0]] + items[1..];
    }
  }

  lemma {:induction false} ReadyPrefix(cat: Catalogue, s: State, items: seq<Item>, k: nat) returns (n: nat)
    requires k <= |ReadyIn(cat, s, items)|
    ensures n <= |items| && ReadyIn(cat, s, items)[..k] == ReadyIn(cat, s, items[..n])
  {
    hide IsNext;
    if k == 0 {
      n := 0;
    } else {
      var first := if IsNext(cat, s, items[0].phase, items[0].task) then [items[0]] else [];
      var m := ReadyPrefix(cat, s, items[1..], k - |first|);
      n := m + 1;
      assert items[..n] == [items[0]] + items[1..][..m];
      ReadyCons(cat, s, items[0], items[1..][..m]);
    }
  }

  /** The recommendations are the ready tasks among the first n of the catalogue; n stops short of all
      tasks only when max(1, limit) of them are found. */
  lemma NextTasksAreFirst(cat: Catalogue, s: State, limit: int) returns (n: nat)
    ensures n <= |Items(cat)| && NextTasks(cat, s, limit) == ReadyIn(cat, s, Items(cat)[..n])
    ensures forall x :: x in NextTasks(cat, s, limit) <==> x in Items(cat)[..n] && IsNext(cat, s, x.phase, x.task)
    ensures |NextTasks(cat, s, limit)| <= (if limit > 1 then limit else 1)
    ensures n < |Items(cat)| ==> |NextTasks(cat, s, limit)| == if limit > 1 then limit else 1
  {
    hide Items, IsNext, ReadyIn;
    var items, ready, most := Items(cat), Ready(cat, s), if limit > 1 then limit else 1;
    if most < |ready| {
      n := ReadyPrefix(cat, s, items, most);
    } else {
      n := |items|;
      assert items[..n] == items;
    }
    ReadyMembers(cat, s, items[..n]);
  }

  // ----- progress -----

  function Percent(done: nat, total: nat): real
    requires total > 0
  {
    (done as real / total as real) * 100.0
  }

  /** Cells of the 30-cell bar that are filled; `int` truncates, and the value is not negative. */
  function Filled(percent: real): int {
    (30.0 * percent / 100.0).Floor
  }

  lemma {:induction false} KeysSize(items: seq<Item>)
    ensures |Keys(items)| <= |items|
    ensures (forall i, j :: 0 <= i < j < |items| ==> KeyOf(items[i]) != KeyOf(items[j])) ==> |Keys(items)| == |items|
  {
    hide KeyOf;
    if items != [] {
      KeysSize(items[1..]);
      assert items == [items[0]] + items[1..];
      assert Keys(items) == {KeyOf(items[0])} + Keys(items[1..]);
    }
  }

  lemma {:induction false} Within(a: set<string>, b: set<string>)
    requires a <= b
    ensures |a| <= |b| && (|a| == |b| <==> a == b)
    decreases |b|
  {
    if a != {} {
      var x :| x in a;
      Within(a - {x}, b - {x});
      if a - {x} == b - {x} {
        assert a == (a - {x}) + {x} && b == (b - {x}) + {x};
      }
    }
  }

  lemma Share(a: real, b: real)
    requires 0.0 <= a <= b && b > 0.0
    ensures 0.0 <= a / b <= 1.0 && (a / b == 1.0 <==> a == b)
  {
  }

  /** The percentage in exact arithmetic, and the whole cells of the bar. */
  lemma ProgressExact(done: nat, total: nat)
    requires total > 0
    ensures Percent(done, total) * total as real == 100.0 * done as real
    ensures Filled(Percent(done, total)) == 30 * done / total
  {
    var share := done as real / total as real;
    assert share * total as real == done as real;
    assert 30.0 * Percent(done, total) / 100.0 == 30.0 * share;
    FloorOfShare(done, total, share);
  }

  lemma FloorOfShare(done: nat, total: nat, share: real)
    requires total > 0 && share * total as real == done as real
    ensures (30.0 * share).Floor == 30 * done / total
  {
    var n := 30 * done / total;
    assert n * total <= 30 * done < (n + 1) * total;
    RealProduct(n, total);
    RealProduct(n + 1, total);
    assert 30.0 * share * total as real == (30 * done) as real;
    Between(n as real, 30.0 * share, (n + 1) as real, total as real);
  }

  lemma RealProduct(a: int, b: int)
    ensures (a * b) as real == a as real * b as real
  {
  }

  lemma Between(lo: real, x: real, hi: real, total: real)
    requires total > 0.0 && lo * total <= x * total < hi * total
    ensures lo <= x < hi
  {
  }

  lemma PercentBounds(done: nat, total: nat)
    requires done <= total && total > 0
    ensures 0.0 <= Percent(done, total) <= 100.0 && 0 <= Filled(Percent(done, total)) <= 30
    ensures Percent(done, total) == 100.0 <==> done == total
    ensures Filled(Percent(done, total)) == 30 <==> done == total
  {
    var share := done as real / total as real;
    Share(done as real, total as real);
    assert 30.0 * Percent(done, total) / 100.0 == 30.0 * share;
  }

  /** Over every run the percentage stays within 100 and the bar within 30 cells; either is full
      exactly when every task is complete, if no two tasks share a key. */
  lemma {:induction false} ProgressBounds(cat: Catalogue, requests: seq<Request>)
    requires Items(cat) != []
    ensures var done := |Run(cat, requests).completed|;
            var percent := Percent(done, |Items(cat)|);
            && 0.0 <= percent <= 100.0 && 0 <= Filled(percent) <= 30
            && (DistinctKeys(cat) ==>
                  && (percent == 100.0 <==> AllDone(cat, Run(cat, requests)))
                  && (Filled(percent) == 30 <==> AllDone(cat, Run(cat, requests))))
  {
    var s, items := Run(cat, requests), Items(cat);
    RunInvariant(cat, requests);
    KeysSize(items);
    hide Run, Items, Percent, Filled;
    assert |s.completed| == |s.completed.Keys|;
    Within(s.completed.Keys, Keys(items));
    PercentBounds(|s.completed|, |items|);
    AllDoneKeys(cat, s);
  }

  ghost predicate DistinctKeys(cat: Catalogue) {
    forall i, j :: 0 <= i < j < |Items(cat)| ==> KeyOf(Items(cat)[i]) != KeyOf(Items(cat)[j])
  }

  ghost predicate AllDone(cat: Catalogue, s: State) {
    forall x :: x in Items(cat) ==> KeyOf(x) in s.completed
  }

  lemma AllDoneKeys(cat: Catalogue, s: State)
    requires s.completed.Keys <= Keys(Items(cat))
    ensures AllDone(cat, s) <==> s.completed.Keys == Keys(Items(cat))
  {
    hide Items, KeyOf;
  }
}
