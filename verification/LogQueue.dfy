/** The log queue: any number of writing threads, one Node thread that drains in batches.

A write is named by a number, which also names its message and its two memory blocks. It pins the
drain function, allocates the string and then the list node, pushes under the lock, and queues one
drain call. A drain call swaps the whole queue out under the lock and then logs and frees one
message after the other.
*/
module LogQueue {
  import opened Runs

  type Write = nat

  datatype Block = Text(write: Write) | ListNode(write: Write)

  datatype Drain =
    | Idle
    | Started                                // a call has begun, the queue is not swapped yet
    | Between(rest: seq<Write>)
    | Logged(write: Write, rest: seq<Write>) // handed to process._rawDebug, nothing freed yet
    | HalfFreed(write: Write, rest: seq<Write>)

  /** `writing` are the writes between acquiring the pin and queueing the call; the next three sets
      say how far each has got. `pushes`, `log`, `acquired` and `released` are history. */
  datatype State = State(
    writing: set<Write>,
    withText: set<Write>,
    withNode: set<Write>,
    pushed: set<Write>,
    queue: seq<Write>,
    calls: nat,
    drain: Drain,
    pins: int,
    nextWrite: Write,
    pushes: seq<Write>,
    log: seq<Write>,
    acquired: seq<Block>,
    released: seq<Block>)

  datatype Event =
    | BeginWrite
    | AllocateText(w: Write)
    | AllocateNode(w: Write)
    | Push(w: Write)
    | QueueCall(w: Write)
    | StartDrain
    | Swap
    | LogFirst
    | FreeText
    | FreeNode
    | EndDrain

  /** The logger context itself holds one reference to the drain function. */
  function Init(): State { State({}, {}, {}, {}, [], 0, Idle, 1, 0, [], [], [], []) }

  function Next(s: State, e: Event): Option<State> {
    match e
    case BeginWrite =>
      Some(s.(writing := s.writing + {s.nextWrite}, pins := s.pins + 1, nextWrite := s.nextWrite + 1))
    case AllocateText(w) =>
      if w in s.writing && w !in s.withText then
        Some(s.(withText := s.withText + {w}, acquired := s.acquired + [Text(w)]))
      else None
    case AllocateNode(w) =>
      if w in s.withText && w !in s.withNode then
        Some(s.(withNode := s.withNode + {w}, acquired := s.acquired + [ListNode(w)]))
      else None
    case Push(w) =>
      if w in s.withNode && w !in s.pushed then
        Some(s.(pushed := s.pushed + {w}, queue := s.queue + [w], pushes := s.pushes + [w]))
      else None
    case QueueCall(w) =>
      if w in s.pushed then
        Some(s.(writing := s.writing - {w}, withText := s.withText - {w}, withNode := s.withNode - {w},
                pushed := s.pushed - {w}, calls := s.calls + 1))
      else None
    case StartDrain =>
      if s.calls > 0 && s.drain.Idle? then Some(s.(calls := s.calls - 1, drain := Started)) else None
    case Swap =>
      if s.drain.Started? then Some(s.(drain := Between(s.queue), queue := [])) else None
    case LogFirst =>
      if s.drain.Between? && s.drain.rest != [] then
        Some(s.(drain := Logged(s.drain.rest[0], s.drain.rest[1..]), log := s.log + [s.drain.rest[0]]))
      else None
    case FreeText =>
      if s.drain.Logged? then
        Some(s.(drain := HalfFreed(s.drain.write, s.drain.rest), released := s.released + [Text(s.drain.write)]))
      else None
    case FreeNode =>
      if s.drain.HalfFreed? then
        Some(s.(drain := Between(s.drain.rest), released := s.released + [ListNode(s.drain.write)]))
      else None
    case EndDrain =>
      if s.drain == Between([]) then Some(s.(drain := Idle, pins := s.pins - 1)) else None
  }

  // ---------------------------------------------------------------- messages, calls and pins

  /** Messages swapped out and not logged yet. */
  function InDrain(d: Drain): seq<Write> { if d.Idle? || d.Started? then [] else d.rest }

  ghost predicate SetsInv(s: State) {
    && s.pushed <= s.withNode <= s.withText <= s.writing
    && (forall w :: w in s.writing ==> w < s.nextWrite)
  }

  ghost predicate MessagesInv(s: State) { s.log + InDrain(s.drain) + s.queue == s.pushes }

  /** No message waits without a call or a write that is about to queue one. */
  ghost predicate CallsInv(s: State) { |s.queue| <= s.calls + (if s.drain.Started? then 1 else 0) + |s.pushed| }

  ghost predicate PinsInv(s: State) { s.pins == 1 + s.calls + (if s.drain.Idle? then 0 else 1) + |s.writing| }

  ghost predicate Inv(s: State) { MessagesInv(s) && CountsInv(s) }

  lemma StepKeepsMessages(s: State, e: Event)
    requires MessagesInv(s) && Next(s, e).Some?
    ensures MessagesInv(Next(s, e).value)
  {
    if e.LogFirst? {
      assert s.drain.rest == [s.drain.rest[0]] + s.drain.rest[1..];
    }
  }

  ghost predicate CountsInv(s: State) { SetsInv(s) && CallsInv(s) && PinsInv(s) }

  lemma WriteStepKeepsCounts(s: State, e: Event)
    requires CountsInv(s) && Next(s, e).Some? && (e.BeginWrite? || e.AllocateText? || e.AllocateNode? || e.Push?)
    ensures CountsInv(Next(s, e).value)
  {
    if e.BeginWrite? {
      assert s.nextWrite !in s.writing;
    }
  }

  lemma QueueCallKeepsCounts(s: State, w: Write)
    requires CountsInv(s) && Next(s, QueueCall(w)).Some?
    ensures CountsInv(Next(s, QueueCall(w)).value)
  {
    assert |s.pushed - {w}| == |s.pushed| - 1 && |s.writing - {w}| == |s.writing| - 1;
  }

  lemma StepKeepsCounts(s: State, e: Event)
    requires CountsInv(s) && Next(s, e).Some?
    ensures CountsInv(Next(s, e).value)
  {
    if e.QueueCall? {
      QueueCallKeepsCounts(s, e.w);
    } else if e.BeginWrite? || e.AllocateText? || e.AllocateNode? || e.Push? {
      WriteStepKeepsCounts(s, e);
    }
  }

  lemma RunsKeepInv(events: seq<Event>)
    ensures Run(Next, Init(), events).Some? ==> Inv(Run(Next, Init(), events).value)
  {
    forall a, e | Inv(a) && Next(a, e).Some? ensures Inv(Next(a, e).value) {
      StepKeepsMessages(a, e);
      StepKeepsCounts(a, e);
    }
    InvariantOfRuns(Next, Inv, Init(), events);
  }

  /** With any number of writers: messages are logged in push order, none is stranded, and the drain
      function is pinned as often as somebody still needs it. */
  lemma MessagesAreLoggedInPushOrder(events: seq<Event>)
    ensures var r := Run(Next, Init(), events);
            r.Some? ==>
              var s := r.value;
              && s.log <= s.pushes
              && (s.drain.Idle? ==> s.log + s.queue == s.pushes)
              && |s.queue| <= s.calls + (if s.drain.Started? then 1 else 0) + |s.pushed|
              && (s.calls == 0 && s.drain.Idle? && s.writing == {} ==> s.log == s.pushes && s.pins == 1)
              && s.pins == 1 + s.calls + (if s.drain.Idle? then 0 else 1) + |s.writing|
  {
    RunsKeepInv(events);
    var r := Run(Next, Init(), events);
    if r.Some? {
      var s := r.value;
      if s.writing == {} {
        assert s.pushed == {};
      }
    }
  }

  // ---------------------------------------------------------------- release order with one writer

  /** One writing thread: a write begins only when the one before has queued its call. */
  function NextSingle(s: State, e: Event): Option<State> {
    if e.BeginWrite? && s.writing != {} then None else Next(s, e)
  }

  function Blocks(writes: seq<Write>): seq<Block> {
    if writes == [] then [] else [Text(writes[0]), ListNode(writes[0])] + Blocks(writes[1..])
  }

  lemma {:induction false} BlocksConcat(a: seq<Write>, b: seq<Write>)
    ensures Blocks(a + b) == Blocks(a) + Blocks(b)
  {
    if a == [] {
      assert a + b == b;
    } else {
      assert (a + b)[1..] == a[1..] + b;
      BlocksConcat(a[1..], b);
    }
  }

  /** Blocks of the messages swapped out, oldest first. */
  function DrainBlocks(d: Drain): seq<Block> {
    match d
    case Idle => []
    case Started => []
    case Between(rest) => Blocks(rest)
    case Logged(w, rest) => [Text(w), ListNode(w)] + Blocks(rest)
    case HalfFreed(w, rest) => [ListNode(w)] + Blocks(rest)
  }

  /** Blocks that write `w` has allocated and not yet pushed. */
  function WriterBlocks(s: State, w: int): seq<Block> {
    if w < 0 || w !in s.withText || w in s.pushed then []
    else if w !in s.withNode then [Text(w)]
    else [Text(w), ListNode(w)]
  }

  /** Blocks already released, then those on their way to release, in order. */
  function Pipeline(s: State): seq<Block> { s.released + (DrainBlocks(s.drain) + Blocks(s.queue)) }

  lemma SwapMoves(s: State)
    requires s.drain.Started?
    ensures Pipeline(Next(s, Swap).value) == Pipeline(s)
  {
    assert [] + Blocks(s.queue) == Blocks(s.queue) + [];
  }

  lemma LogFirstMoves(s: State)
    requires s.drain.Between? && s.drain.rest != []
    ensures Pipeline(Next(s, LogFirst).value) == Pipeline(s)
  {
  }

  lemma MoveOver(r: seq<Block>, b: Block, rest: seq<Block>, q: seq<Block>)
    ensures (r + [b]) + (rest + q) == r + (([b] + rest) + q)
  {
  }

  lemma FreeTextMoves(s: State)
    requires s.drain.Logged?
    ensures Pipeline(Next(s, FreeText).value) == Pipeline(s)
  {
    var w, rest := s.drain.write, s.drain.rest;
    MoveOver(s.released, Text(w), [ListNode(w)] + Blocks(rest), Blocks(s.queue));
    assert [Text(w)] + ([ListNode(w)] + Blocks(rest)) == [Text(w), ListNode(w)] + Blocks(rest);
  }

  lemma FreeNodeMoves(s: State)
    requires s.drain.HalfFreed?
    ensures Pipeline(Next(s, FreeNode).value) == Pipeline(s)
  {
    MoveOver(s.released, ListNode(s.drain.write), Blocks(s.drain.rest), Blocks(s.queue));
  }

  predicate IsDrainStep(e: Event) {
    e.StartDrain? || e.Swap? || e.LogFirst? || e.FreeText? || e.FreeNode? || e.EndDrain?
  }

  /** Draining only moves blocks along. */
  lemma DrainStepMoves(s: State, e: Event)
    requires Next(s, e).Some? && IsDrainStep(e)
    ensures Pipeline(Next(s, e).value) == Pipeline(s)
  {
    match e
    case Swap => SwapMoves(s);
    case LogFirst => LogFirstMoves(s);
    case FreeText => FreeTextMoves(s);
    case FreeNode => FreeNodeMoves(s);
    case _ =>
  }

  /** A push adds the blocks of its message at the end. */
  lemma PushExtends(s: State, w: Write)
    requires Next(s, Push(w)).Some?
    ensures Pipeline(Next(s, Push(w)).value) == Pipeline(s) + [Text(w), ListNode(w)]
  {
    BlocksConcat(s.queue, [w]);
    assert Blocks([w]) == [Text(w), ListNode(w)] by { assert [w][1..] == []; }
  }

  ghost predicate ReleaseInv(s: State) {
    && SetsInv(s)
    && (forall w :: w in s.writing ==> w == s.nextWrite - 1)
    && Pipeline(s) + WriterBlocks(s, s.nextWrite - 1) == s.acquired
  }

  lemma StepKeepsRelease(s: State, e: Event)
    requires ReleaseInv(s) && NextSingle(s, e).Some?
    ensures ReleaseInv(NextSingle(s, e).value)
  {
    var t := NextSingle(s, e).value;
    if IsDrainStep(e) {
      DrainStepMoves(s, e);
    } else if e.Push? {
      PushExtends(s, e.w);
      assert WriterBlocks(t, t.nextWrite - 1) == [];
    } else {
      assert Pipeline(t) == Pipeline(s);
      if e.BeginWrite? {
        assert s.nextWrite !in s.withText;
      }
    }
  }

  /** With one writer, every run of writes and batch drains releases the blocks in exactly the order
      they were acquired, as a ring buffer demands. */
  lemma BlocksAreReleasedInOrder(events: seq<Event>)
    ensures var r := Run(NextSingle, Init(), events); r.Some? ==> r.value.released <= r.value.acquired
  {
    forall a, e | ReleaseInv(a) && NextSingle(a, e).Some? ensures ReleaseInv(NextSingle(a, e).value) {
      StepKeepsRelease(a, e);
    }
    InvariantOfRuns(NextSingle, ReleaseInv, Init(), events);
  }

  // ---------------------------------------------------------------- release order with many writers

  ghost predicate PushOrderInv(s: State) { Pipeline(s) == Blocks(s.pushes) }

  lemma StepKeepsPushOrder(s: State, e: Event)
    requires PushOrderInv(s) && Next(s, e).Some?
    ensures PushOrderInv(Next(s, e).value)
  {
    if IsDrainStep(e) {
      DrainStepMoves(s, e);
    } else if e.Push? {
      PushExtends(s, e.w);
      BlocksConcat(s.pushes, [e.w]);
      assert Blocks([e.w]) == [Text(e.w), ListNode(e.w)] by { assert [e.w][1..] == []; }
    }
  }

  lemma RunsKeepPushOrder(events: seq<Event>)
    ensures Run(Next, Init(), events).Some? ==> PushOrderInv(Run(Next, Init(), events).value)
  {
    forall a, e | PushOrderInv(a) && Next(a, e).Some? ensures PushOrderInv(Next(a, e).value) {
      StepKeepsPushOrder(a, e);
    }
    InvariantOfRuns(Next, PushOrderInv, Init(), events);
  }

  /** With any number of writers blocks are released in push order, message by message, whatever
      the order in which they were acquired. */
  lemma BlocksAreReleasedInPushOrder(events: seq<Event>)
    ensures var r := Run(Next, Init(), events);
            r.Some? ==>
              var s := r.value;
              && s.released <= Blocks(s.pushes)
              && (s.drain.Idle? && s.queue == [] ==> s.released == Blocks(s.pushes))
  {
    RunsKeepPushOrder(events);
  }

  // ---------------------------------------------------------------- when release order is ring order

  /** What a ring buffer demands: blocks come back in the order they were handed out. */
  predicate InRingOrder(s: State) { s.released <= s.acquired }

  /** Steps that bring pushed messages to the log: queueing their calls, and draining. */
  predicate Settles(e: Event) { e.QueueCall? || IsDrainStep(e) }

  ghost predicate AllSettle(events: seq<Event>) { forall i :: 0 <= i < |events| ==> Settles(events[i]) }

  lemma SettlingStep(s: State, e: Event)
    requires Inv(s) && PushOrderInv(s) && Settles(e) && Next(s, e).Some?
    ensures var t := Next(s, e).value;
            Inv(t) && PushOrderInv(t) && t.pushes == s.pushes && t.acquired == s.acquired
  {
    StepKeepsMessages(s, e);
    StepKeepsCounts(s, e);
    StepKeepsPushOrder(s, e);
  }

  lemma {:induction false} SettlingAllocatesNothing(s: State, events: seq<Event>)
    requires Inv(s) && PushOrderInv(s) && AllSettle(events) && Run(Next, s, events).Some?
    ensures var t := Run(Next, s, events).value;
            Inv(t) && PushOrderInv(t) && t.pushes == s.pushes && t.acquired == s.acquired
    decreases |events|
  {
    if events != [] {
      SettlingStep(s, events[0]);
      SettlingAllocatesNothing(Next(s, events[0]).value, events[1..]);
    }
  }

  /** The rest of a drain that is under way. */
  function FinishEvents(s: State): seq<Event> {
    match s.drain
    case Idle => []
    case Started => [Swap] + DrainEvents(|s.queue|)
    case Between(rest) => DrainEvents(|rest|)
    case Logged(_, rest) => [FreeText, FreeNode] + DrainEvents(|rest|)
    case HalfFreed(_, rest) => [FreeNode] + DrainEvents(|rest|)
  }

  lemma {:induction false} DrainEventsSettle(n: nat)
    ensures AllSettle(DrainEvents(n))
  {
    if n > 0 {
      DrainEventsSettle(n - 1);
    }
  }

  lemma RunOneMore(s: State, e: Event, events: seq<Event>)
    requires Next(s, e).Some?
    ensures Run(Next, s, [e] + events) == Run(Next, Next(s, e).value, events)
  {
    assert ([e] + events)[1..] == events;
  }

  lemma FinishRuns(s: State)
    ensures AllSettle(FinishEvents(s))
    ensures Run(Next, s, FinishEvents(s)).Some? && Run(Next, s, FinishEvents(s)).value.drain.Idle?
  {
    match s.drain
    case Idle =>
    case Started =>
      var t := Next(s, Swap).value;
      RunOneMore(s, Swap, DrainEvents(|s.queue|));
      DrainEventsSettle(|s.queue|);
      DrainRuns(t);
    case Between(rest) =>
      DrainEventsSettle(|rest|);
      DrainRuns(s);
    case Logged(_, rest) =>
      RunOfTwo(Next, s, FreeText, FreeNode);
      RunAppend(Next, s, [FreeText, FreeNode], DrainEvents(|rest|));
      DrainEventsSettle(|rest|);
      DrainRuns(Run(Next, s, [FreeText, FreeNode]).value);
    case HalfFreed(_, rest) =>
      RunOneMore(s, FreeNode, DrainEvents(|rest|));
      DrainEventsSettle(|rest|);
      DrainRuns(Next(s, FreeNode).value);
  }

  /** An idle queue can be emptied: no message is without a call, or a write about to queue one. */
  lemma IdleQueueCanBeEmptied(s: State) returns (events: seq<Event>)
    requires Inv(s) && s.drain.Idle?
    ensures AllSettle(events) && Run(Next, s, events).Some?
    ensures var t := Run(Next, s, events).value; t.drain.Idle? && t.queue == []
  {
    events := [];
    if s.queue != [] {
      DrainEventsSettle(|s.queue|);
      if s.calls > 0 {
        CallRuns(s);
        events := CallEvents(|s.queue|);
      } else {
        assert |s.pushed| > 0;
        var w :| w in s.pushed;
        CallRuns(Next(s, QueueCall(w)).value);
        RunOneMore(s, QueueCall(w), CallEvents(|s.queue|));
        events := [QueueCall(w)] + CallEvents(|s.queue|);
      }
    }
  }

  lemma QueueCanBeEmptied(s: State) returns (events: seq<Event>)
    requires Inv(s) && PushOrderInv(s)
    ensures AllSettle(events) && Run(Next, s, events).Some?
    ensures var t := Run(Next, s, events).value; t.drain.Idle? && t.queue == []
  {
    FinishRuns(s);
    SettlingAllocatesNothing(s, FinishEvents(s));
    var t := Run(Next, s, FinishEvents(s)).value;
    var more := IdleQueueCanBeEmptied(t);
    RunAppend(Next, s, FinishEvents(s), more);
    events := FinishEvents(s) + more;
  }

  /** Ring order survives the draining of what has been pushed exactly when the blocks of the pushed
      messages, in push order, are the first ones acquired. */
  lemma RingOrderIff(events: seq<Event>)
    ensures var r := Run(Next, Init(), events);
            r.Some? ==>
              (Blocks(r.value.pushes) <= r.value.acquired <==>
               forall more :: AllSettle(more) && Run(Next, r.value, more).Some? ==> InRingOrder(Run(Next, r.value, more).value))
  {
    RunsKeepInv(events);
    RunsKeepPushOrder(events);
    var r := Run(Next, Init(), events);
    if r.Some? {
      var s := r.value;
      if Blocks(s.pushes) <= s.acquired {
        forall more | AllSettle(more) && Run(Next, s, more).Some? ensures InRingOrder(Run(Next, s, more).value) {
          SettlingAllocatesNothing(s, more);
          assert Run(Next, s, more).value.released <= Blocks(s.pushes);
        }
      } else {
        var more := QueueCanBeEmptied(s);
        SettlingAllocatesNothing(s, more);
        assert Run(Next, s, more).value.released == Blocks(s.pushes);
      }
    }
  }

  const OVERLAP: seq<Event> := [BeginWrite, BeginWrite, AllocateText(0)]
  const SECOND_WRITE: seq<Event> := [AllocateText(1), AllocateNode(1), Push(1)]
  const DRAIN_SECOND: seq<Event> := [QueueCall(1), StartDrain, Swap]

  /** The second of two overlapping writes is pushed while the first has only its text. */
  function Overlapped(): State {
    State({0, 1}, {0, 1}, {1}, {1}, [1], 0, Idle, 3, 2, [1], [], [Text(0), Text(1), ListNode(1)], [])
  }

  lemma OverlappedIsReached()
    ensures Run(Next, Init(), OVERLAP + SECOND_WRITE) == Some(Overlapped())
  {
    RunOfThree(Next, Init(), BeginWrite, BeginWrite, AllocateText(0));
    var s := Run(Next, Init(), OVERLAP).value;
    assert s == State({0, 1}, {0}, {}, {}, [], 0, Idle, 3, 2, [], [], [Text(0)], []);
    RunOfThree(Next, s, AllocateText(1), AllocateNode(1), Push(1));
    var t := Run(Next, s, SECOND_WRITE).value;
    assert t.writing == {0, 1} && t.withText == {0, 1} && t.withNode == {1} && t.pushed == {1};
    assert t.queue == [1] && t.pushes == [1] && t.acquired == [Text(0), Text(1), ListNode(1)];
    RunAppend(Next, Init(), OVERLAP, SECOND_WRITE);
  }

  lemma OverlappedIsDrained()
    ensures var r := Run(Next, Overlapped(), DRAIN_SECOND + [LogFirst, FreeText]);
            r.Some? && r.value.released == [Text(1)] && r.value.acquired == Overlapped().acquired
  {
    RunOfThree(Next, Overlapped(), QueueCall(1), StartDrain, Swap);
    var s := Run(Next, Overlapped(), DRAIN_SECOND).value;
    assert s.drain == Between([1]) && s.released == [];
    RunOfTwo(Next, s, LogFirst, FreeText);
    RunAppend(Next, Overlapped(), DRAIN_SECOND, [LogFirst, FreeText]);
  }

  /** Two overlapping writes: the text allocated first is not the first to be released. */
  lemma OverlappingWritesBreakRingOrder()
    ensures var r := Run(Next, Init(), OVERLAP + SECOND_WRITE + (DRAIN_SECOND + [LogFirst, FreeText]));
            && r.Some?
            && r.value.acquired == [Text(0), Text(1), ListNode(1)]
            && r.value.released == [Text(1)] && !(r.value.released <= r.value.acquired)
  {
    OverlappedIsReached();
    OverlappedIsDrained();
    RunAppend(Next, Init(), OVERLAP + SECOND_WRITE, DRAIN_SECOND + [LogFirst, FreeText]);
    assert [Text(1)][0] != [Text(0), Text(1), ListNode(1)][0];
  }

  // ---------------------------------------------------------------- a write and a call as runs

  function WriteEvents(w: Write): seq<Event> {
    [BeginWrite, AllocateText(w), AllocateNode(w)] + [Push(w), QueueCall(w)]
  }

  /** A new write with both blocks allocated and nothing pushed. */
  function Prepared(s: State): State {
    var w := s.nextWrite;
    s.(writing := s.writing + {w}, withText := s.withText + {w}, withNode := s.withNode + {w},
       pins := s.pins + 1, nextWrite := w + 1, acquired := s.acquired + [Text(w)] + [ListNode(w)])
  }

  lemma PreparedIsReached(s: State)
    requires SetsInv(s)
    ensures Run(Next, s, [BeginWrite, AllocateText(s.nextWrite), AllocateNode(s.nextWrite)]) == Some(Prepared(s))
  {
    var w := s.nextWrite;
    assert w !in s.writing;
    RunOfThree(Next, s, BeginWrite, AllocateText(w), AllocateNode(w));
  }

  lemma PreparedIsQueued(s: State)
    requires SetsInv(s)
    ensures var w := s.nextWrite;
            Run(Next, Prepared(s), [Push(w), QueueCall(w)]) ==
            Some(s.(nextWrite := w + 1, pins := s.pins + 1, calls := s.calls + 1, queue := s.queue + [w],
                    pushes := s.pushes + [w], acquired := s.acquired + [Text(w)] + [ListNode(w)]))
  {
    var w := s.nextWrite;
    assert w !in s.writing;
    RunOfTwo(Next, Prepared(s), Push(w), QueueCall(w));
    assert s.writing + {w} - {w} == s.writing && s.withText + {w} - {w} == s.withText;
    assert s.withNode + {w} - {w} == s.withNode && s.pushed + {w} - {w} == s.pushed;
  }

  /** A write as written is one run of the writer's steps, whatever other writers are doing. */
  lemma WriteRuns(s: State)
    requires SetsInv(s)
    ensures var w := s.nextWrite;
            Run(Next, s, WriteEvents(w)) ==
            Some(s.(nextWrite := w + 1, pins := s.pins + 1, calls := s.calls + 1, queue := s.queue + [w],
                    pushes := s.pushes + [w], acquired := s.acquired + Blocks([w])))
  {
    var w := s.nextWrite;
    PreparedIsReached(s);
    PreparedIsQueued(s);
    assert s.acquired + [Text(w)] + [ListNode(w)] == s.acquired + Blocks([w]) by { assert [w][1..] == []; }
    RunAppend(Next, s, [BeginWrite, AllocateText(w), AllocateNode(w)], [Push(w), QueueCall(w)]);
  }

  /** After the swap, the rest of a call logs and frees the messages taken. */
  lemma {:induction false} DrainRuns(s: State)
    requires s.drain.Between?
    ensures var r := Run(Next, s, DrainEvents(|s.drain.rest|));
            r == Some(s.(drain := Idle, pins := s.pins - 1, log := s.log + s.drain.rest,
                         released := s.released + Blocks(s.drain.rest)))
    decreases |s.drain.rest|
  {
    var rest := s.drain.rest;
    if rest == [] {
      assert Run(Next, s, [EndDrain]) == Next(s, EndDrain) by { assert [EndDrain][1..] == []; }
      assert s.log + rest == s.log && s.released + Blocks(rest) == s.released;
    } else {
      var first := [LogFirst, FreeText, FreeNode];
      RunOfThree(Next, s, LogFirst, FreeText, FreeNode);
      RunAppend(Next, s, first, DrainEvents(|rest| - 1));
      var t := Run(Next, s, first).value;
      DrainRuns(t);
      assert t.log + rest[1..] == s.log + rest;
      assert t.released + Blocks(rest[1..]) == s.released + Blocks(rest);
    }
  }

  function DrainEvents(n: nat): seq<Event> {
    if n == 0 then [EndDrain] else [LogFirst, FreeText, FreeNode] + DrainEvents(n - 1)
  }

  /** The steps of one call, from its start to its end. */
  function CallEvents(n: nat): seq<Event> { [StartDrain, Swap] + DrainEvents(n) }

  /** A call as written is one run of the drain steps. */
  lemma CallRuns(s: State)
    requires s.drain.Idle? && s.calls > 0
    ensures Run(Next, s, CallEvents(|s.queue|)) ==
            Some(s.(calls := s.calls - 1, queue := [], pins := s.pins - 1, log := s.log + s.queue,
                    released := s.released + Blocks(s.queue)))
  {
    RunOfTwo(Next, s, StartDrain, Swap);
    RunAppend(Next, s, [StartDrain, Swap], DrainEvents(|s.queue|));
    DrainRuns(s.(calls := s.calls - 1, drain := Between(s.queue), queue := []));
  }

  // ---------------------------------------------------------------- the two functions as written

  /** The logger context. Other writers may stand anywhere in a write of their own; each method is
      a run of the protocol. */
  class LoggerContext {
    var messages: seq<Write>
    var pins: int
    var calls: nat
    var nextWrite: Write
    ghost var writing: set<Write>
    ghost var withText: set<Write>
    ghost var withNode: set<Write>
    ghost var pushed: set<Write>
    ghost var drain: Drain
    ghost var pushes: seq<Write>
    ghost var log: seq<Write>
    ghost var acquired: seq<Block>
    ghost var released: seq<Block>

    ghost function Value(): State
      reads this
    {
      State(writing, withText, withNode, pushed, messages, calls, drain, pins, nextWrite, pushes, log, acquired, released)
    }

    constructor ()
      ensures Value() == Init()
    {
      messages, pins, calls, nextWrite := [], 1, 0, 0;
      writing, withText, withNode, pushed, drain := {}, {}, {}, {}, Idle;
      pushes, log, acquired, released := [], [], [], [];
    }

    /** s_napi_log_writer_write: text first, then the node, because that is how they are freed. */
    method WriterWrite() returns (w: Write)
      requires SetsInv(Value())
      modifies this`messages, this`pins, this`calls, this`nextWrite, this`acquired, this`pushes
      ensures w == old(nextWrite) && messages == old(messages) + [w]
      ensures Some(Value()) == Run(Next, old(Value()), WriteEvents(w))
    {
      WriteRuns(Value());
      w := nextWrite;
      nextWrite := nextWrite + 1;
      pins := pins + 1;
      acquired := acquired + [Text(w)];
      acquired := acquired + [ListNode(w)];
      assert acquired == old(acquired) + Blocks([w]) by { assert [w][1..] == []; }
      messages := messages + [w];
      pushes := pushes + [w];
      calls := calls + 1;
    }

    /** s_threadsafe_log_call with an environment: drains whatever is queued, then unpins. */
    method LogCall()
      requires calls > 0 && drain.Idle?
      modifies this`messages, this`pins, this`calls, this`log, this`released
      ensures messages == [] && log == old(log) + old(messages)
      ensures Some(Value()) == Run(Next, old(Value()), CallEvents(|old(messages)|))
    {
      CallRuns(Value());
      calls := calls - 1;
      var batch := messages;
      messages := [];
      LogBatch(batch);
      pins := pins - 1;
    }

    /** The pop loop: each message is logged, then its text and its node are freed. */
    method LogBatch(all: seq<Write>)
      modifies this`log, this`released
      ensures log == old(log) + all && released == old(released) + Blocks(all)
    {
      var batch := all;
      while batch != []
        modifies this`log, this`released
        invariant log + batch == old(log) + all
        invariant released + Blocks(batch) == old(released) + Blocks(all)
        decreases |batch|
      {
        var w := batch[0];
        batch := batch[1..];
        log := log + [w];
        released := released + [Text(w)];
        released := released + [ListNode(w)];
      }
    }
  }
}
