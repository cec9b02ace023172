/** The message queue: publishers and a reader over a bounded System V queue with an end marker. */
module Queue {
  import opened Wrappers

  const DATA: int := 1
  const END: int := 2

  datatype Message<T> = Message(mtype: int, data: T)

  /** The queue in the kernel. Messages have one size, so the byte limit is a number of messages. */
  datatype Kernel<T> = Kernel(queue: seq<Message<T>>, removed: bool, capacity: nat)

  /** EndOfQueue is the error for a queue removed while the sender waited for room. */
  datatype SendResult = Sent | EndOfQueue | WriteError

  /** A send returns when there is room or when the queue is gone. */
  predicate SendReturns<T>(k: Kernel<T>) {
    k.removed || |k.queue| < k.capacity
  }

  function MsgSnd<T>(k: Kernel<T>, m: Message<T>, waited: bool): (Kernel<T>, SendResult) {
    if k.removed then (k, if waited then EndOfQueue else WriteError) else (k.(queue := k.queue + [m]), Sent)
  }

  /** A receive with message type 0 takes the first message; it returns when there is one or when the
      queue is gone. */
  predicate ReceiveReturns<T>(k: Kernel<T>) {
    k.removed || k.queue != []
  }

  function MsgRcv<T>(k: Kernel<T>): (Kernel<T>, Option<Message<T>>)
    requires ReceiveReturns(k)
  {
    if k.removed then (k, None) else (k.(queue := k.queue[1..]), Some(k.queue[0]))
  }

  /** The reader's `next`: nothing for the end marker and for an error. */
  function Delivered<T>(m: Option<Message<T>>): Option<T> {
    if m.Some? && m.value.mtype != END then Some(m.value.data) else None
  }

  class MessageQueue<T> {
    const capacity: nat
    var queue: seq<Message<T>>
    var removed: bool

    /** `msgget` opens the queue of the path, with whatever is in it. */
    constructor (found: seq<Message<T>>, capacity: nat)
      ensures InKernel() == Kernel(found, false, capacity)
    {
      this.capacity := capacity;
      queue, removed := found, false;
    }

    function InKernel(): Kernel<T>
      reads this
    {
      Kernel(queue, removed, capacity)
    }

    method Publish(v: T, waited: bool) returns (r: SendResult)
      requires SendReturns(InKernel())
      modifies this
      ensures (InKernel(), r) == MsgSnd(old(InKernel()), Message(1, v), waited)
    {
      if removed {
        return if waited then EndOfQueue else WriteError;
      }
      queue := queue + [Message(DATA, v)];
      return Sent;
    }

    /** The end marker carries undefined data. */
    method Done(undefinedData: T, waited: bool) returns (r: SendResult)
      requires SendReturns(InKernel())
      modifies this
      ensures (InKernel(), r) == MsgSnd(old(InKernel()), Message(2, undefinedData), waited)
    {
      if removed {
        return if waited then EndOfQueue else WriteError;
      }
      queue := queue + [Message(END, undefinedData)];
      return Sent;
    }

    method Next() returns (r: Option<T>)
      requires ReceiveReturns(InKernel())
      modifies this
      ensures var (k, m) := MsgRcv(old(InKernel())); InKernel() == k && r == Delivered(m)
    {
      if removed {
        return None;
      }
      var buf := queue[0];
      queue := queue[1..];
      if buf.mtype == END {
        return None;
      }
      return Some(buf.data);
    }

    method Deinit()
      modifies this
      ensures InKernel() == old(InKernel()).(queue := [], removed := true)
    {
      queue, removed := [], true;
    }
  }

  // ----- publishers and a reader, interleaved -----

  /** Publishers still have `todo` to send, some wait for room. The logs record what the kernel
      accepted, in order and by whom, what the reader took, what it handed on before it stopped, and
      what was in the queue when it was removed. */
  datatype System<T> = System(
    kernel: Kernel<T>,
    todo: map<nat, seq<Message<T>>>,
    waiting: set<nat>,
    sent: seq<(nat, Message<T>)>,
    received: seq<Message<T>>,
    yielded: seq<T>,
    stopped: bool,
    lost: seq<Message<T>>)

  function Start<T>(kernel: Kernel<T>, programs: map<nat, seq<Message<T>>>): System<T> {
    System(kernel, programs, {}, [], [], [], false, [])
  }

  datatype Action = Send(p: nat) | Wait(p: nat) | Read | Remove

  predicate Enabled<T>(s: System<T>, a: Action) {
    match a
    case Send(p) => p in s.todo && s.todo[p] != [] && SendReturns(s.kernel)
    case Wait(p) => p in s.todo && s.todo[p] != [] && p !in s.waiting && !SendReturns(s.kernel)
    case Read => !s.stopped && ReceiveReturns(s.kernel)
    case Remove => !s.kernel.removed
  }

  /** What the next send of a publisher answers. */
  function ResultOf<T>(s: System<T>, p: nat): SendResult
    requires p in s.todo && s.todo[p] != []
  {
    MsgSnd(s.kernel, s.todo[p][0], p in s.waiting).1
  }

  function Step<T>(s: System<T>, a: Action): System<T>
    requires Enabled(s, a)
  {
    match a
    case Send(p) =>
      var m := s.todo[p][0];
      var k := MsgSnd(s.kernel, m, p in s.waiting).0;
      s.(kernel := k, todo := s.todo[p := s.todo[p][1..]], waiting := s.waiting - {p},
         sent := if ResultOf(s, p) == Sent then s.sent + [(p, m)] else s.sent)
    case Wait(p) => s.(waiting := s.waiting + {p})
    case Read =>
      var (k, m) := MsgRcv(s.kernel);
      var v := Delivered(m);
      s.(kernel := k, received := if m.Some? then s.received + [m.value] else s.received,
         yielded := if v.Some? then s.yielded + [v.value] else s.yielded, stopped := v.None?)
    case Remove =>
      s.(kernel := s.kernel.(queue := [], removed := true), lost := s.kernel.queue)
  }

  /** The state after some actions, if each could happen when it did. */
  function Run<T>(start: System<T>, actions: seq<Action>): Option<System<T>> {
    if actions == [] then Some(start)
    else
      var before, a := Run(start, actions[..|actions| - 1]), actions[|actions| - 1];
      if before.Some? && Enabled(before.value, a) then Some(Step(before.value, a)) else None
  }

  // ----- orders -----

  /** All accepted messages, in the order in which the kernel accepted them. */
  function Messages<T>(sent: seq<(nat, Message<T>)>): (ms: seq<Message<T>>)
    ensures |ms| == |sent| && forall i :: 0 <= i < |sent| ==> ms[i] == sent[i].1
  {
    seq(|sent|, i requires 0 <= i < |sent| => sent[i].1)
  }

  /** What one publisher sent, in order. */
  function From<T>(sent: seq<(nat, Message<T>)>, p: nat): seq<Message<T>> {
    if sent == [] then []
    else
      var n := |sent| - 1;
      From(sent[..n], p) + if sent[n].0 == p then [sent[n].1] else []
  }

  /** The data before the first end marker. */
  function BeforeEnd<T>(ms: seq<Message<T>>): seq<T> {
    if ms == [] || ms[0].mtype == END then [] else [ms[0].data] + BeforeEnd(ms[1..])
  }

  predicate HasEnd<T>(ms: seq<Message<T>>) {
    exists i :: 0 <= i < |ms| && ms[i].mtype == END
  }

  ghost predicate Inv<T>(start: Kernel<T>, programs: map<nat, seq<Message<T>>>, s: System<T>) {
    && s.received + s.lost + s.kernel.queue == start.queue + Messages(s.sent)
    && (s.kernel.removed ==> s.kernel.queue == []) && (!s.kernel.removed ==> s.lost == [])
    && s.yielded == BeforeEnd(s.received)
    && (!s.stopped ==> !HasEnd(s.received))
    && (s.stopped ==> HasEnd(s.received) || s.kernel.removed)
    && s.todo.Keys == programs.Keys
    && (forall p :: p in programs ==> From(s.sent, p) <= programs[p])
    && (!s.kernel.removed ==> forall p :: p in programs ==> From(s.sent, p) + s.todo[p] == programs[p])
    && (forall p :: p !in programs ==> From(s.sent, p) == [])
  }

  lemma {:induction false} BeforeEndSnoc<T>(ms: seq<Message<T>>, m: Message<T>)
    requires !HasEnd(ms)
    ensures BeforeEnd(ms + [m]) == BeforeEnd(ms) + if m.mtype == END then [] else [m.data]
    ensures HasEnd(ms + [m]) <==> m.mtype == END
  {
    if ms != [] {
      assert ms[0].mtype != END;
      assert !HasEnd(ms[1..]) by {
        forall i | 0 <= i < |ms[1..]| ensures ms[1..][i].mtype != END { assert ms[1..][i] == ms[i + 1]; }
      }
      BeforeEndSnoc(ms[1..], m);
      assert (ms + [m])[1..] == ms[1..] + [m];
    }
    assert (ms + [m])[|ms|] == m;
  }

  lemma FromSnoc<T>(sent: seq<(nat, Message<T>)>, q: nat, m: Message<T>, p: nat)
    ensures From(sent + [(q, m)], p) == From(sent, p) + if q == p then [m] else []
  {
  }

  lemma MoveFirst<T>(done: seq<Message<T>>, todo: seq<Message<T>>)
    requires todo != []
    ensures (done + [todo[0]]) + todo[1..] == done + todo
    ensures done + [todo[0]] <= done + todo
  {
  }

  lemma {:induction false} SendKeepsInv<T>(start: Kernel<T>, programs: map<nat, seq<Message<T>>>, s: System<T>, p: nat)
    requires Inv(start, programs, s) && Enabled(s, Send(p))
    ensures Inv(start, programs, Step(s, Send(p)))
  {
    hide BeforeEnd, HasEnd, From;
    var m := s.todo[p][0];
    var t := Step(s, Send(p));
    if !s.kernel.removed {
      assert Messages(t.sent) == Messages(s.sent) + [m];
      forall q ensures From(t.sent, q) == From(s.sent, q) + if q == p then [m] else [] {
        FromSnoc(s.sent, p, m, q);
      }
      MoveFirst(From(s.sent, p), s.todo[p]);
      assert s.received + s.lost + (s.kernel.queue + [m]) == (s.received + s.lost + s.kernel.queue) + [m];
    }
  }

  lemma TakeFirst<T>(taken: seq<Message<T>>, queue: seq<Message<T>>)
    requires queue != []
    ensures (taken + [queue[0]]) + [] + queue[1..] == taken + [] + queue
  {
  }

  lemma ReadKeepsInv<T>(start: Kernel<T>, programs: map<nat, seq<Message<T>>>, s: System<T>)
    requires Inv(start, programs, s) && Enabled(s, Read)
    ensures Inv(start, programs, Step(s, Read))
  {
    hide From, Messages, BeforeEnd, HasEnd;
    if !s.kernel.removed {
      BeforeEndSnoc(s.received, s.kernel.queue[0]);
      TakeFirst(s.received, s.kernel.queue);
    }
  }

  /** Whatever the interleaving, every reachable state keeps the accounts. */
  lemma {:induction false} RunKeepsInv<T>(start: Kernel<T>, programs: map<nat, seq<Message<T>>>, actions: seq<Action>)
    requires !start.removed
    ensures var s := Run(Start(start, programs), actions);
            s.Some? ==> Inv(start, programs, s.value)
    decreases |actions|
  {
    hide Step;
    if actions == [] {
      assert From<T>([], 0) == [];
    } else {
      RunKeepsInv(start, programs, actions[..|actions| - 1]);
      var before, a := Run(Start(start, programs), actions[..|actions| - 1]), actions[|actions| - 1];
      if before.Some? && Enabled(before.value, a) {
        StepKeepsInv(start, programs, before.value, a);
      }
    }
  }

  lemma StepKeepsInv<T>(start: Kernel<T>, programs: map<nat, seq<Message<T>>>, s: System<T>, a: Action)
    requires Inv(start, programs, s) && Enabled(s, a)
    ensures Inv(start, programs, Step(s, a))
  {
    match a
    case Send(p) => SendKeepsInv(start, programs, s, p);
    case Wait(p) =>
    case Read => ReadKeepsInv(start, programs, s);
    case Remove =>
  }

  // ----- what every run keeps -----

  /** In every reachable state, what was received, what removal dropped and what is queued are, in this
      order, what was in the queue at first and then what was sent, in global send order. */
  lemma Conservation<T>(start: Kernel<T>, programs: map<nat, seq<Message<T>>>, actions: seq<Action>)
    requires !start.removed
    ensures var s := Run(Start(start, programs), actions);
            s.Some? ==> && s.value.received + s.value.lost + s.value.kernel.queue
                           == start.queue + Messages(s.value.sent)
                        && (s.value.lost != [] ==> s.value.kernel.removed)
  {
    RunKeepsInv(start, programs, actions);
  }

  /** The queue never holds more than its capacity, or than was found in it if that was more. */
  lemma {:induction false} QueueBounded<T>(
    start: Kernel<T>, programs: map<nat, seq<Message<T>>>, actions: seq<Action>)
    ensures var r := Run(Start(start, programs), actions);
            r.Some? ==> && r.value.kernel.capacity == start.capacity
                        && (|r.value.kernel.queue| <= start.capacity || |r.value.kernel.queue| <= |start.queue|)
    decreases |actions|
  {
    if actions != [] {
      QueueBounded(start, programs, actions[..|actions| - 1]);
    }
  }

  lemma {:induction false} BeforeEndExtends<T>(ms: seq<Message<T>>, more: seq<Message<T>>)
    requires HasEnd(ms)
    ensures BeforeEnd(ms + more) == BeforeEnd(ms)
  {
    if ms[0].mtype != END {
      assert HasEnd(ms[1..]) by {
        var i :| 0 <= i < |ms| && ms[i].mtype == END;
        assert ms[1..][i - 1] == ms[i];
      }
      BeforeEndExtends(ms[1..], more);
      assert (ms + more)[1..] == ms[1..] + more;
    }
  }

  /** The reader hands on, in order, the data of the global order up to the first end marker: a part of
      it while it runs, and all of it once it has received the end marker, whether or not the queue is
      removed afterwards. A reader that has stopped either received the marker or met a removed queue. */
  lemma ReaderYields<T>(start: Kernel<T>, programs: map<nat, seq<Message<T>>>, actions: seq<Action>)
    requires !start.removed
    ensures var r := Run(Start(start, programs), actions);
            r.Some? ==> var s, order := r.value, start.queue + Messages(r.value.sent);
                        && s.received <= order && s.yielded == BeforeEnd(s.received)
                        && s.yielded <= BeforeEnd(order)
                        && (HasEnd(s.received) ==> s.stopped && HasEnd(order) && s.yielded == BeforeEnd(order))
                        && (s.stopped ==> HasEnd(s.received) || s.kernel.removed)
  {
    RunKeepsInv(start, programs, actions);
    var r := Run(Start(start, programs), actions);
    if r.Some? {
      hide Run, Messages, BeforeEnd, HasEnd;
      var s := r.value;
      var rest := s.lost + s.kernel.queue;
      assert start.queue + Messages(s.sent) == s.received + rest;
      BeforeEndPrefix(s.received, rest);
      if HasEnd(s.received) {
        BeforeEndExtends(s.received, rest);
        EndStays(s.received, rest);
      }
    }
  }

  lemma EndStays<T>(ms: seq<Message<T>>, more: seq<Message<T>>)
    requires HasEnd(ms)
    ensures HasEnd(ms + more)
  {
    var i :| 0 <= i < |ms| && ms[i].mtype == END;
    assert (ms + more)[i].mtype == END;
  }

  lemma {:induction false} BeforeEndPrefix<T>(ms: seq<Message<T>>, more: seq<Message<T>>)
    ensures BeforeEnd(ms) <= BeforeEnd(ms + more)
  {
    if ms != [] && ms[0].mtype != END {
      BeforeEndPrefix(ms[1..], more);
      assert (ms + more)[1..] == ms[1..] + more;
    }
  }

  lemma {:induction false} FromPrefix<T>(sent: seq<(nat, Message<T>)>, n: nat, p: nat)
    requires n <= |sent|
    ensures From(sent[..n], p) <= From(sent, p)
    decreases |sent|
  {
    if n == |sent| {
      assert sent[..n] == sent;
    } else {
      FromPrefix(sent[..|sent| - 1], n, p);
      assert sent[..|sent| - 1][..n] == sent[..n];
    }
  }

  /** The sends that the reader has taken so far. */
  function TakenSends<T>(start: Kernel<T>, s: System<T>): seq<(nat, Message<T>)> {
    var n := |s.received| - |start.queue|;
    if n <= 0 then [] else if n <= |s.sent| then s.sent[..n] else s.sent
  }

  /** Nothing of a publisher is lost, duplicated or reordered: what the reader took from it is the
      beginning of what it was to send. */
  lemma PublisherOrder<T>(start: Kernel<T>, programs: map<nat, seq<Message<T>>>, actions: seq<Action>, p: nat)
    requires !start.removed && p in programs
    ensures var r := Run(Start(start, programs), actions);
            r.Some? ==> var taken := TakenSends(start, r.value);
                        && From(taken, p) <= programs[p]
                        && r.value.received <= start.queue + Messages(taken)
                        && (|start.queue| <= |r.value.received| ==> r.value.received == start.queue + Messages(taken))
  {
    RunKeepsInv(start, programs, actions);
    var r := Run(Start(start, programs), actions);
    if r.Some? {
      hide Run, BeforeEnd, HasEnd;
      var s := r.value;
      var n := |TakenSends(start, s)|;
      FromPrefix(s.sent, n, p);
      assert s.sent[..|s.sent|] == s.sent;
      assert s.received <= start.queue + Messages(s.sent);
      assert TakenSends(start, s) == s.sent[..n];
    }
  }

  /** A publisher's program: publish some values, then call `done`. */
  function Program<T>(values: seq<T>, undefinedData: T): seq<Message<T>> {
    seq(|values|, i requires 0 <= i < |values| => Message(DATA, values[i])) + [Message(END, undefinedData)]
  }

  lemma {:induction false} ProgramData<T>(values: seq<T>, undefinedData: T)
    ensures BeforeEnd(Program(values, undefinedData)) == values
  {
    var ms := Program(values, undefinedData);
    if values != [] {
      ProgramData(values[1..], undefinedData);
      assert ms[1..] == Program(values[1..], undefinedData);
    }
  }

  lemma {:induction false} OnlyPublisher<T>(sent: seq<(nat, Message<T>)>, p: nat)
    requires forall q :: q != p ==> From(sent, q) == []
    ensures From(sent, p) == Messages(sent)
  {
    if sent != [] {
      var n := |sent| - 1;
      var q, m := sent[n].0, sent[n].1;
      assert |From(sent, q)| > 0;
      forall o | o != p ensures From(sent[..n], o) == [] { assert From(sent, o) == []; }
      OnlyPublisher(sent[..n], p);
      assert Messages(sent) == Messages(sent[..n]) + [m];
    }
  }

  lemma EndIsLast<T>(values: seq<T>, undefinedData: T, ms: seq<Message<T>>)
    requires ms <= Program(values, undefinedData) && HasEnd(ms)
    ensures ms == Program(values, undefinedData)
  {
  }

  /** One publisher, a fresh queue. */
  function OneStart<T>(capacity: nat, values: seq<T>, undefinedData: T): System<T> {
    Start(Kernel([], false, capacity), map[0 := Program(values, undefinedData)])
  }

  lemma {:induction false} OneSent<T>(capacity: nat, values: seq<T>, undefinedData: T, actions: seq<Action>)
    ensures var r := Run(OneStart(capacity, values, undefinedData), actions);
            r.Some? ==> Messages(r.value.sent) <= Program(values, undefinedData)
  {
    var program := Program(values, undefinedData);
    RunKeepsInv(Kernel([], false, capacity), map[0 := program], actions);
    hide Run, Program, BeforeEnd, HasEnd, From;
    var r := Run(OneStart(capacity, values, undefinedData), actions);
    if r.Some? {
      OnlyPublisher(r.value.sent, 0);
    }
  }

  /** With a fresh queue and one publisher that ends with `done`, a reader that has received the end
      marker has handed on exactly what was published, also after the queue is removed; and a reader
      that stopped before any removal has received it. */
  lemma SinglePublisher<T>(capacity: nat, values: seq<T>, undefinedData: T, actions: seq<Action>)
    ensures var r := Run(OneStart(capacity, values, undefinedData), actions);
            r.Some? ==> && (HasEnd(r.value.received) ==> r.value.yielded == values)
                        && (r.value.stopped && !r.value.kernel.removed ==> HasEnd(r.value.received))
                        && r.value.yielded <= values
  {
    var start := Kernel([], false, capacity);
    hide Run, BeforeEnd, Program, HasEnd, From, Messages;
    OneSent(capacity, values, undefinedData, actions);
    ReaderYields(start, map[0 := Program(values, undefinedData)], actions);
    var r := Run(OneStart(capacity, values, undefinedData), actions);
    if r.Some? {
      var sent := Messages(r.value.sent);
      assert start.queue + sent == sent;
      SentData(values, undefinedData, sent);
    }
  }

  lemma SentData<T>(values: seq<T>, undefinedData: T, sent: seq<Message<T>>)
    requires sent <= Program(values, undefinedData)
    ensures BeforeEnd(sent) <= values && (HasEnd(sent) ==> BeforeEnd(sent) == values)
  {
    ProgramData(values, undefinedData);
    if HasEnd(sent) {
      EndIsLast(values, undefinedData, sent);
    }
    hide BeforeEnd, HasEnd, Program;
    var program := Program(values, undefinedData);
    assert program == sent + program[|sent|..];
    BeforeEndPrefix(sent, program[|sent|..]);
  }

  /** Removing the queue first stops the reader with nothing: that the end marker was received,
      `HasEnd(received)`, cannot be weakened to the reader having stopped. */
  lemma RemovedTooEarly()
    ensures var r := Run(OneStart(1, [7], 0), [Remove, Read]);
            r.Some? && r.value.stopped && r.value.yielded == []
  {
    var start := OneStart(1, [7], 0);
    assert [Remove, Read][..1] == [Remove] && [Remove][..0] == [];
    assert Run(start, [Remove]) == Some(Step(start, Remove));
  }

  lemma ProgramEnds<T>(values: seq<T>, undefinedData: T)
    ensures var program := Program(values, undefinedData); HasEnd(program) && |program| == |values| + 1
  {
    assert Program(values, undefinedData)[|values|].mtype == END;
  }

  // ----- every run of publishers and a reader ends -----

  lemma {:induction false} FromHasEnd<T>(sent: seq<(nat, Message<T>)>, p: nat)
    requires HasEnd(From(sent, p))
    ensures HasEnd(Messages(sent))
  {
    var n := |sent| - 1;
    var i :| 0 <= i < |From(sent, p)| && From(sent, p)[i].mtype == END;
    if i < |From(sent[..n], p)| {
      FromHasEnd(sent[..n], p);
      var j :| 0 <= j < n && Messages(sent[..n])[j].mtype == END;
      assert Messages(sent)[j].mtype == END;
    } else {
      assert Messages(sent)[n].mtype == END;
    }
  }

  /** A publisher that is to call `done` has something left to send while the reader runs on an empty
      queue. */
  lemma EndStillToCome<T>(start: Kernel<T>, programs: map<nat, seq<Message<T>>>, s: System<T>, p: nat)
    requires Inv(start, programs, s) && p in programs && HasEnd(programs[p])
    requires !s.kernel.removed && !s.stopped && s.kernel.queue == []
    ensures s.todo[p] != []
  {
    hide BeforeEnd, HasEnd, From, Messages;
    if s.todo[p] == [] {
      assert From(s.sent, p) == programs[p];
      FromHasEnd(s.sent, p);
      assert s.received + s.lost + s.kernel.queue == s.received;
      EndAfter(start.queue, Messages(s.sent));
      assert false;
    }
  }

  lemma EndAfter<T>(before: seq<Message<T>>, ms: seq<Message<T>>)
    requires HasEnd(ms)
    ensures HasEnd(before + ms)
  {
    var i :| 0 <= i < |ms| && ms[i].mtype == END;
    assert (before + ms)[|before| + i].mtype == END;
  }

  /** While nothing is removed and there is room for one message, whatever was in the queue and whatever
      the publishers are to send, the reader or any publisher that ends with `done` can act until the reader
      has stopped. */
  lemma Progress<T>(start: Kernel<T>, programs: map<nat, seq<Message<T>>>, actions: seq<Action>, p: nat)
    requires !start.removed && start.capacity >= 1 && p in programs && HasEnd(programs[p])
    ensures var r := Run(Start(start, programs), actions);
            r.Some? && !r.value.kernel.removed && !r.value.stopped ==>
              Enabled(r.value, Read) || Enabled(r.value, Send(p))
  {
    RunKeepsInv(start, programs, actions);
    QueueBounded(start, programs, actions);
    hide Run, Inv, HasEnd;
    var r := Run(Start(start, programs), actions);
    if r.Some? && !r.value.kernel.removed && !r.value.stopped && r.value.kernel.queue == [] {
      EndStillToCome(start, programs, r.value, p);
      assert p in r.value.todo by { TodoKeys(start, programs, r.value); }
    }
  }

  lemma TodoKeys<T>(start: Kernel<T>, programs: map<nat, seq<Message<T>>>, s: System<T>)
    requires Inv(start, programs, s)
    ensures s.todo.Keys == programs.Keys
  {
  }

  /** The messages still to be sent, by publisher and position. */
  function Pending<T>(todo: map<nat, seq<Message<T>>>): set<(nat, nat)> {
    set p, i: nat | p in todo && i < |todo[p]| :: (p, i)
  }

  lemma PendingAfterSend<T>(todo: map<nat, seq<Message<T>>>, p: nat)
    requires p in todo && todo[p] != []
    ensures |Pending(todo[p := todo[p][1..]])| == |Pending(todo)| - 1
  {
    var last := (p, |todo[p]| - 1);
    assert last in Pending(todo);
    assert Pending(todo[p := todo[p][1..]]) == Pending(todo) - {last};
  }

  /** Those who wait have something to send. */
  ghost predicate WaitersPend<T>(s: System<T>) {
    forall p :: p in s.waiting ==> p in s.todo && s.todo[p] != []
  }

  lemma {:induction false} FirstOfEach(ps: set<nat>, pending: set<(nat, nat)>)
    requires forall p :: p in ps ==> (p, 0) in pending
    ensures |ps| <= |pending|
    decreases |ps|
  {
    if ps != {} {
      var p :| p in ps;
      FirstOfEach(ps - {p}, pending - {(p, 0)});
    }
  }

  lemma FewWaiters<T>(s: System<T>)
    requires WaitersPend(s)
    ensures |s.waiting| <= |Pending(s.todo)|
  {
    FirstOfEach(s.waiting, Pending(s.todo));
  }

  /** How many actions can still happen: three for each message to be sent, one for each queued one, and
      the removal; after it, a failing send each and a failing read. */
  function Budget<T>(s: System<T>): int {
    if s.kernel.removed then |Pending(s.todo)| + (if s.stopped then 0 else 1)
    else 3 * |Pending(s.todo)| - |s.waiting| + |s.kernel.queue| + 1
  }

  lemma StepKeepsWaiters<T>(s: System<T>, a: Action)
    requires WaitersPend(s) && Enabled(s, a)
    ensures WaitersPend(Step(s, a))
  {
  }

  lemma SendSpends<T>(s: System<T>, p: nat)
    requires Enabled(s, Send(p))
    ensures Budget(Step(s, Send(p))) < Budget(s)
  {
    PendingAfterSend(s.todo, p);
    hide Pending;
  }

  lemma RemoveSpends<T>(s: System<T>)
    requires Enabled(s, Remove) && WaitersPend(s)
    requires !s.stopped && s.kernel.queue == [] ==> Pending(s.todo) != {}
    ensures Budget(Step(s, Remove)) < Budget(s)
  {
    FewWaiters(s);
    hide Pending;
  }

  lemma StepSpends<T>(start: Kernel<T>, programs: map<nat, seq<Message<T>>>, s: System<T>, p: nat, a: Action)
    requires Inv(start, programs, s) && p in programs && HasEnd(programs[p]) && WaitersPend(s) && Enabled(s, a)
    ensures WaitersPend(Step(s, a)) && Budget(Step(s, a)) < Budget(s)
  {
    StepKeepsWaiters(s, a);
    TodoKeys(start, programs, s);
    hide Inv, Pending, HasEnd, WaitersPend;
    match a
    case Send(q) => SendSpends(s, q);
    case Wait(q) =>
    case Read =>
    case Remove =>
      if !s.stopped && s.kernel.queue == [] {
        EndStillToCome(start, programs, s, p);
        FirstPending(s.todo, p);
      }
      RemoveSpends(s);
  }

  lemma FirstPending<T>(todo: map<nat, seq<Message<T>>>, p: nat)
    requires p in todo && todo[p] != []
    ensures (p, 0) in Pending(todo)
  {
  }

  lemma {:induction false} RunSpends<T>(
    start: Kernel<T>, programs: map<nat, seq<Message<T>>>, actions: seq<Action>, p: nat)
    requires !start.removed && p in programs && HasEnd(programs[p])
    ensures var r := Run(Start(start, programs), actions);
            r.Some? ==> && WaitersPend(r.value)
                        && |actions| + Budget(r.value) <= 3 * |Pending(programs)| + |start.queue| + 1
    decreases |actions|
  {
    hide Step, Inv, HasEnd, Pending;
    if actions != [] {
      var before, a := actions[..|actions| - 1], actions[|actions| - 1];
      RunSpends(start, programs, before, p);
      RunKeepsInv(start, programs, before);
      hide WaitersPend, Budget;
      var r := Run(Start(start, programs), before);
      if r.Some? && Enabled(r.value, a) {
        StepSpends(start, programs, r.value, p, a);
      }
    }
  }

  /** Every run of any publishers, one of which ends with `done`, and the reader is over after at most three
      actions for each message to be sent, one for each found in the queue, and one more; and when nothing
      but removal is left to do and the queue has room for a message at all, the reader has stopped with all
      data up to the first end marker. */
  lemma {:induction false} RunsFinish<T>(
    start: Kernel<T>, programs: map<nat, seq<Message<T>>>, actions: seq<Action>, p: nat)
    requires !start.removed && p in programs && HasEnd(programs[p])
    ensures var r := Run(Start(start, programs), actions);
            r.Some? ==>
              && |actions| <= 3 * |Pending(programs)| + |start.queue| + 1
              && (start.capacity >= 1 && !r.value.kernel.removed
                  && (forall a :: a != Remove ==> !Enabled(r.value, a)) ==>
                    r.value.stopped && r.value.yielded == BeforeEnd(start.queue + Messages(r.value.sent)))
  {
    RunSpends(start, programs, actions, p);
    if start.capacity >= 1 { Progress(start, programs, actions, p); }
    ReaderYields(start, programs, actions);
    hide Run, Enabled, Pending, HasEnd, BeforeEnd, Messages, WaitersPend;
    var r := Run(Start(start, programs), actions);
    if r.Some? { FewWaiters(r.value); }
  }

  lemma {:induction false} PendingOfOne<T>(program: seq<Message<T>>)
    ensures |Pending(map[0 := program])| == |program|
    decreases |program|
  {
    if program != [] {
      PendingOfOne(program[1..]);
      PendingAfterSend(map[0 := program], 0);
      assert map[0 := program][0 := program[1..]] == map[0 := program[1..]];
    } else {
      assert Pending(map[0 := program]) == {};
    }
  }

  /** For one publisher and a fresh queue that is at most 3 * (|values| + 1) + 1 actions, and in the end
      exactly what was published has been handed on. */
  lemma {:induction false} SinglePublisherFinishes<T>(
    capacity: nat, values: seq<T>, undefinedData: T, actions: seq<Action>)
    ensures var r := Run(OneStart(capacity, values, undefinedData), actions);
            r.Some? ==>
              && |actions| <= 3 * (|values| + 1) + 1
              && (capacity >= 1 && !r.value.kernel.removed
                  && (forall a :: a != Remove ==> !Enabled(r.value, a)) ==>
                    r.value.stopped && r.value.yielded == values)
  {
    var program := Program(values, undefinedData);
    ProgramEnds(values, undefinedData);
    PendingOfOne(program);
    SinglePublisher(capacity, values, undefinedData, actions);
    hide Run, Enabled, Program, Pending, HasEnd, BeforeEnd, Messages;
    RunsFinish(Kernel([], false, capacity), map[0 := program], actions, 0);
  }

  // ----- what a sender is told -----

  /** The last action of the publisher itself. */
  function LastOf(actions: seq<Action>, p: nat): Option<Action> {
    if actions == [] then None
    else
      var a := actions[|actions| - 1];
      if a == Send(p) || a == Wait(p) then Some(a) else LastOf(actions[..|actions| - 1], p)
  }

  lemma {:induction false} WaitingExactly<T>(start: System<T>, actions: seq<Action>, p: nat)
    requires start.waiting == {}
    ensures var r := Run(start, actions);
            r.Some? ==> && (p in r.value.waiting <==> LastOf(actions, p) == Some(Wait(p)))
                        && (r.value.kernel.removed <==> start.kernel.removed || Remove in actions)
    decreases |actions|
  {
    if actions != [] {
      var n := |actions| - 1;
      WaitingExactly(start, actions[..n], p);
      assert actions == actions[..n] + [actions[n]];
    }
  }

  /** A send succeeds exactly while the queue is there. After its removal a publisher that was waiting for
      room is told that the queue has ended, and any other that writing failed. */
  lemma {:induction false} SenderIsTold<T>(
    start: Kernel<T>, programs: map<nat, seq<Message<T>>>, actions: seq<Action>, p: nat)
    requires !start.removed
    ensures var r := Run(Start(start, programs), actions);
            r.Some? && Enabled(r.value, Send(p)) ==>
              ResultOf(r.value, p) == if Remove !in actions then Sent
                                      else if LastOf(actions, p) == Some(Wait(p)) then EndOfQueue
                                      else WriteError
  {
    hide Run, LastOf;
    WaitingExactly(Start(start, programs), actions, p);
  }
}
