/** The HTTP stream callback protocol: body and completion callbacks travel to Node in separate queues.

The event-loop thread counts a chunk into `pending` before queueing it; the Node thread takes it
out again before handing it to JavaScript, and puts a completion call back in its queue while
`pending` is not zero. Node runs one callback at a time; the two threads interleave freely.
*/
module HttpStream {
  import opened Runs
  import opened Machine

  type Chunk = seq<byte>

  /** Queueing a call takes a reference first and puts the call in the queue second. */
  datatype EventLoop =
    | Receiving
    | Counted(chunk: Chunk)   // added to pending, no reference taken yet
    | Pinned(chunk: Chunk)    // reference taken, not queued yet
    | Completing(error: int)  // reference taken, not queued yet
    | Finished

  datatype Node =
    | Idle
    | InBody(chunk: Chunk)    // taken out of pending, not handed to JavaScript yet
    | Requeued                // completion queued again, the reference of the earlier entry still held
    | Done                    // completion handed over, functions aborted

  /** `received`, `dispatched` and `completions` are history: the chunks given to the binding, the
      chunks handed to JavaScript, and the error codes handed to JavaScript. */
  datatype State = State(
    hasBody: bool,
    eventLoop: EventLoop,
    node: Node,
    pending: nat,
    bodyQueue: seq<Chunk>,
    completeQueue: seq<int>,
    bodyRefs: int,
    completeRefs: int,
    received: seq<Chunk>,
    dispatched: seq<Chunk>,
    completions: seq<int>)

  datatype Event =
    | Receive(chunk: Chunk)
    | AcquireBody
    | QueueBody
    | AcquireComplete(error: int)
    | QueueComplete
    | BodyCall
    | DispatchBody
    | CompleteCall
    | ReleaseRequeued

  function Init(hasBody: bool): State {
    State(hasBody, Receiving, Idle, 0, [], [], if hasBody then 1 else 0, 1, [], [], [])
  }

  /** aws_atomic_fetch_add and aws_atomic_fetch_sub on a size_t. */
  function Add(pending: nat, len: nat): nat { Wrap(pending + len) }
  function Sub(pending: nat, len: nat): nat { Wrap(pending - len) }

  function Next(s: State, e: Event): Option<State> {
    match e
    case Receive(chunk) =>
      if !s.eventLoop.Receiving? then None
      else if !s.hasBody then Some(s)
      else Some(s.(eventLoop := Counted(chunk), pending := Add(s.pending, |chunk|), received := s.received + [chunk]))
    case AcquireBody =>
      if !s.eventLoop.Counted? then None
      else Some(s.(eventLoop := Pinned(s.eventLoop.chunk), bodyRefs := s.bodyRefs + 1))
    case QueueBody =>
      if !s.eventLoop.Pinned? then None
      else Some(s.(eventLoop := Receiving, bodyQueue := s.bodyQueue + [s.eventLoop.chunk]))
    case AcquireComplete(error) =>
      if !s.eventLoop.Receiving? then None
      else Some(s.(eventLoop := Completing(error), completeRefs := s.completeRefs + 1))
    case QueueComplete =>
      if !s.eventLoop.Completing? then None
      else Some(s.(eventLoop := Finished, completeQueue := s.completeQueue + [s.eventLoop.error]))
    case BodyCall =>
      if !s.node.Idle? || s.bodyQueue == [] then None
      else Some(s.(node := InBody(s.bodyQueue[0]), bodyQueue := s.bodyQueue[1..], pending := Sub(s.pending, |s.bodyQueue[0]|)))
    case DispatchBody =>
      if !s.node.InBody? then None
      else Some(s.(node := Idle, dispatched := s.dispatched + [s.node.chunk], bodyRefs := s.bodyRefs - 1))
    case CompleteCall =>
      // requeueing is one step: nothing else runs on this thread, and the event loop has finished
      if !s.node.Idle? || s.completeQueue == [] then None
      else if s.pending != 0 then
        Some(s.(node := Requeued, completeQueue := s.completeQueue[1..] + [s.completeQueue[0]], completeRefs := s.completeRefs + 1))
      else
        Some(s.(node := Done, completeQueue := s.completeQueue[1..], completions := s.completions + [s.completeQueue[0]],
                bodyRefs := if s.hasBody then s.bodyRefs - 1 else s.bodyRefs, completeRefs := s.completeRefs - 2))
    case ReleaseRequeued =>
      if !s.node.Requeued? then None
      else Some(s.(node := Idle, completeRefs := s.completeRefs - 1))
  }

  // ---------------------------------------------------------------- lengths and bytes of chunk lists

  function Total(chunks: seq<Chunk>): nat {
    if chunks == [] then 0 else |chunks[0]| + Total(chunks[1..])
  }

  function Bytes(chunks: seq<Chunk>): seq<byte> {
    if chunks == [] then [] else chunks[0] + Bytes(chunks[1..])
  }

  function NonEmpty(chunks: seq<Chunk>): seq<Chunk> {
    if chunks == [] then []
    else if chunks[0] == [] then NonEmpty(chunks[1..])
    else [chunks[0]] + NonEmpty(chunks[1..])
  }

  lemma ConcatTail(a: seq<Chunk>, b: seq<Chunk>)
    requires a != []
    ensures a + b != [] && (a + b)[0] == a[0] && (a + b)[1..] == a[1..] + b
  {
  }

  lemma {:induction false} TotalConcat(a: seq<Chunk>, b: seq<Chunk>)
    ensures Total(a + b) == Total(a) + Total(b)
  {
    if a == [] {
      assert a + b == b;
    } else {
      ConcatTail(a, b);
      TotalConcat(a[1..], b);
    }
  }

  lemma {:induction false} BytesConcat(a: seq<Chunk>, b: seq<Chunk>)
    ensures Bytes(a + b) == Bytes(a) + Bytes(b)
  {
    if a == [] {
      assert a + b == b;
    } else {
      ConcatTail(a, b);
      BytesConcat(a[1..], b);
      assert a[0] + (Bytes(a[1..]) + Bytes(b)) == (a[0] + Bytes(a[1..])) + Bytes(b);
    }
  }

  lemma {:induction false} NonEmptyConcat(a: seq<Chunk>, b: seq<Chunk>)
    ensures NonEmpty(a + b) == NonEmpty(a) + NonEmpty(b)
  {
    if a == [] {
      assert a + b == b;
    } else {
      ConcatTail(a, b);
      NonEmptyConcat(a[1..], b);
      assert [a[0]] + (NonEmpty(a[1..]) + NonEmpty(b)) == ([a[0]] + NonEmpty(a[1..])) + NonEmpty(b);
    }
  }

  lemma TotalOfOne(chunk: Chunk)
    ensures Total([chunk]) == |chunk|
  {
    assert [chunk][1..] == [];
  }

  lemma {:induction false} EmptyChunks(a: seq<Chunk>)
    requires Total(a) == 0
    ensures Bytes(a) == [] && NonEmpty(a) == []
    ensures forall i :: 0 <= i < |a| ==> a[i] == []
  {
    if a != [] {
      EmptyChunks(a[1..]);
      assert forall i :: 0 < i < |a| ==> a[i] == a[1..][i - 1];
    }
  }

  // ---------------------------------------------------------------- the invariant

  /** Chunks counted into `pending` and not yet taken out, in arrival order. */
  function Outstanding(s: State): seq<Chunk> {
    s.bodyQueue + (if s.eventLoop.Counted? || s.eventLoop.Pinned? then [s.eventLoop.chunk] else [])
  }

  function InNode(s: State): seq<Chunk> { if s.node.InBody? then [s.node.chunk] else [] }

  /** `pending` is the length of everything outstanding, modulo the width of the counter. */
  ghost predicate CountInv(s: State) { s.pending == Wrap(Total(Outstanding(s))) }

  ghost predicate OrderInv(s: State) {
    && Chunks(s) == s.received
    && (!s.hasBody ==> s.received == [])
  }

  function One(b: bool): nat { if b then 1 else 0 }

  ghost predicate CompletionInv(s: State) {
    && |s.completeQueue| + |s.completions| == One(s.eventLoop.Finished?)
    && (s.node.Done? <==> s.completions != [])
    && (s.node.Requeued? ==> s.completeQueue != [])
    && (s.node.Done? ==> s.pending == 0)
    && s.completeRefs == |s.completeQueue| + One(!s.node.Done?) + One(s.node.Requeued?) + One(s.eventLoop.Completing?)
    && s.bodyRefs == |s.bodyQueue| + |InNode(s)| + One(s.hasBody && !s.node.Done?) + One(s.eventLoop.Pinned?)
  }

  ghost predicate Inv(s: State) { CountInv(s) && OrderInv(s) && CompletionInv(s) }

  lemma ReceiveKeepsCount(s: State, chunk: Chunk)
    requires CountInv(s) && s.hasBody && s.eventLoop.Receiving?
    ensures CountInv(Next(s, Receive(chunk)).value)
  {
    var t := Next(s, Receive(chunk)).value;
    assert Outstanding(t) == Outstanding(s) + [chunk];
    TotalConcat(Outstanding(s), [chunk]);
    TotalOfOne(chunk);
    WrapSum(Total(Outstanding(s)), |chunk|);
  }

  lemma BodyCallKeepsCount(s: State)
    requires CountInv(s) && Next(s, BodyCall).Some?
    ensures CountInv(Next(s, BodyCall).value)
  {
    var t := Next(s, BodyCall).value;
    assert Outstanding(s)[1..] == Outstanding(t);
    WrapSum(Total(Outstanding(s)), -|s.bodyQueue[0]|);
  }

  lemma StepKeepsCount(s: State, e: Event)
    requires CountInv(s) && Next(s, e).Some?
    ensures CountInv(Next(s, e).value)
  {
    if e.Receive? && s.hasBody {
      ReceiveKeepsCount(s, e.chunk);
    } else if e.BodyCall? {
      BodyCallKeepsCount(s);
    } else {
      assert Outstanding(Next(s, e).value) == Outstanding(s);
    }
  }

  /** Where each chunk in the binding is, oldest first. */
  function Chunks(s: State): seq<Chunk> { s.dispatched + InNode(s) + Outstanding(s) }

  lemma BodyCallMovesAChunk(s: State)
    requires Next(s, BodyCall).Some?
    ensures Chunks(Next(s, BodyCall).value) == Chunks(s)
  {
    assert Outstanding(s) == [s.bodyQueue[0]] + Outstanding(Next(s, BodyCall).value);
  }

  lemma ReceiveAddsAChunk(s: State, chunk: Chunk)
    requires Next(s, Receive(chunk)).Some? && s.hasBody
    ensures Chunks(Next(s, Receive(chunk)).value) == Chunks(s) + [chunk]
  {
    assert Outstanding(Next(s, Receive(chunk)).value) == Outstanding(s) + [chunk];
  }

  lemma DispatchMovesAChunk(s: State)
    requires Next(s, DispatchBody).Some?
    ensures Chunks(Next(s, DispatchBody).value) == Chunks(s)
  {
    assert (s.dispatched + [s.node.chunk]) + [] == s.dispatched + [s.node.chunk];
  }

  lemma OtherStepsMoveNothing(s: State, e: Event)
    requires Next(s, e).Some? && !e.BodyCall? && !e.DispatchBody? && !(e.Receive? && s.hasBody)
    ensures Chunks(Next(s, e).value) == Chunks(s)
  {
    assert Outstanding(Next(s, e).value) == Outstanding(s);
  }

  lemma StepKeepsOrder(s: State, e: Event)
    requires OrderInv(s) && Next(s, e).Some?
    ensures OrderInv(Next(s, e).value)
  {
    if e.Receive? && s.hasBody {
      ReceiveAddsAChunk(s, e.chunk);
    } else if e.BodyCall? {
      BodyCallMovesAChunk(s);
    } else if e.DispatchBody? {
      DispatchMovesAChunk(s);
    } else {
      OtherStepsMoveNothing(s, e);
    }
  }

  lemma StepKeepsCompletion(s: State, e: Event)
    requires CompletionInv(s) && Next(s, e).Some?
    ensures CompletionInv(Next(s, e).value)
  {
  }

  lemma StepKeepsInv(s: State, e: Event)
    requires Inv(s) && Next(s, e).Some?
    ensures Inv(Next(s, e).value)
  {
    StepKeepsCount(s, e);
    StepKeepsOrder(s, e);
    StepKeepsCompletion(s, e);
  }

  lemma RunsKeepInv(hasBody: bool, events: seq<Event>)
    ensures Run(Next, Init(hasBody), events).Some? ==> Inv(Run(Next, Init(hasBody), events).value)
  {
    forall a, e | Inv(a) && Next(a, e).Some? ensures Inv(Next(a, e).value) {
      StepKeepsInv(a, e);
    }
    InvariantOfRuns(Next, Inv, Init(hasBody), events);
  }

  /** Completion reaches JavaScript only after every non-empty chunk received, in order and byte for
      byte, provided the undelivered lengths never add up to a multiple of 2^64 other than zero. */
  lemma CompletionComesAfterTheBody(hasBody: bool, events: seq<Event>)
    ensures var r := Run(Next, Init(hasBody), events);
            r.Some? ==>
              var s := r.value;
              && s.dispatched <= s.received
              && |s.completions| <= 1
              && (s.completions != [] ==> s.received == s.dispatched + s.bodyQueue && Total(s.bodyQueue) % TWO_64 == 0)
              && (s.completions != [] && Total(s.bodyQueue) < TWO_64 ==>
                    && Bytes(s.dispatched) == Bytes(s.received)
                    && NonEmpty(s.dispatched) == NonEmpty(s.received)
                    && forall i :: 0 <= i < |s.bodyQueue| ==> s.bodyQueue[i] == [])
  {
    RunsKeepInv(hasBody, events);
    var r := Run(Next, Init(hasBody), events);
    if r.Some? {
      var s := r.value;
      if s.completions != [] {
        assert Outstanding(s) == s.bodyQueue;
        assert s.dispatched + s.bodyQueue == s.received;
        if Total(s.bodyQueue) < TWO_64 {
          BytesConcat(s.dispatched, s.bodyQueue);
          NonEmptyConcat(s.dispatched, s.bodyQueue);
          EmptyChunks(s.bodyQueue);
        }
      }
    }
  }

  // ---------------------------------------------------------------- what completion may overtake

  /** Receives each chunk and hands it to JavaScript before the next one. */
  function DeliverEvents(chunks: seq<Chunk>): seq<Event> {
    if chunks == [] then []
    else [Receive(chunks[0]), AcquireBody, QueueBody] + ([BodyCall, DispatchBody] + DeliverEvents(chunks[1..]))
  }

  /** Receives each chunk and leaves it in the queue. */
  function QueueEvents(chunks: seq<Chunk>): seq<Event> {
    if chunks == [] then [] else [Receive(chunks[0]), AcquireBody, QueueBody] + QueueEvents(chunks[1..])
  }

  const COMPLETE: seq<Event> := [AcquireComplete(0), QueueComplete, CompleteCall]

  ghost predicate Ready(s: State) { s.hasBody && s.eventLoop.Receiving? && s.node.Idle? && s.pending < TWO_64 }

  /** The state with these chunks counted and queued as well. */
  function WithQueued(s: State, chunks: seq<Chunk>): State {
    s.(pending := Wrap(s.pending + Total(chunks)), received := s.received + chunks,
       bodyQueue := s.bodyQueue + chunks, bodyRefs := s.bodyRefs + |chunks|)
  }

  lemma QueuedInTwo(s: State, chunks: seq<Chunk>)
    requires chunks != []
    ensures WithQueued(WithQueued(s, [chunks[0]]), chunks[1..]) == WithQueued(s, chunks)
  {
    var head, tail := chunks[0], chunks[1..];
    TotalOfOne(head);
    WrapSum(s.pending + |head|, Total(tail));
    assert [head] + tail == chunks;
    assert s.received + [head] + tail == s.received + ([head] + tail);
    assert s.bodyQueue + [head] + tail == s.bodyQueue + ([head] + tail);
  }

  /** One chunk on its way into the queue. */
  lemma ReceiveRuns(s: State, chunk: Chunk)
    requires Ready(s)
    ensures Run(Next, s, [Receive(chunk), AcquireBody, QueueBody]) == Some(WithQueued(s, [chunk]))
  {
    var t := s.(eventLoop := Counted(chunk), pending := Add(s.pending, |chunk|), received := s.received + [chunk]);
    var u := t.(eventLoop := Pinned(chunk), bodyRefs := s.bodyRefs + 1);
    assert Next(s, Receive(chunk)) == Some(t) && Next(t, AcquireBody) == Some(u);
    assert Next(u, QueueBody) == Some(WithQueued(s, [chunk])) by { TotalOfOne(chunk); }
    RunOfThree(Next, s, Receive(chunk), AcquireBody, QueueBody);
  }

  lemma {:induction false} QueueRuns(s: State, chunks: seq<Chunk>)
    requires Ready(s)
    ensures Run(Next, s, QueueEvents(chunks)) == Some(WithQueued(s, chunks))
    decreases |chunks|
  {
    if chunks == [] {
      assert s.received + chunks == s.received && s.bodyQueue + chunks == s.bodyQueue;
    } else {
      ReceiveRuns(s, chunks[0]);
      RunAppend(Next, s, [Receive(chunks[0]), AcquireBody, QueueBody], QueueEvents(chunks[1..]));
      QueueRuns(WithQueued(s, [chunks[0]]), chunks[1..]);
      QueuedInTwo(s, chunks);
    }
  }

  /** One chunk on its way out of the queue. */
  lemma DispatchRuns(s: State, chunk: Chunk)
    requires s.node.Idle? && s.bodyQueue == [chunk]
    ensures Run(Next, s, [BodyCall, DispatchBody]) ==
            Some(s.(pending := Wrap(s.pending - |chunk|), bodyQueue := [], bodyRefs := s.bodyRefs - 1,
                    dispatched := s.dispatched + [chunk]))
  {
    assert s.bodyQueue[1..] == [];
    RunOfTwo(Next, s, BodyCall, DispatchBody);
  }

  /** The state after a chunk has come and gone. */
  function WithDelivered(s: State, chunk: Chunk): State {
    s.(received := s.received + [chunk], dispatched := s.dispatched + [chunk])
  }

  /** Dispatching a chunk that was just queued undoes the counting. */
  lemma DispatchQueuedRuns(s: State, chunk: Chunk)
    requires Ready(s) && s.bodyQueue == []
    ensures Run(Next, WithQueued(s, [chunk]), [BodyCall, DispatchBody]) == Some(WithDelivered(s, chunk))
  {
    var t := WithQueued(s, [chunk]);
    assert t.bodyQueue == [chunk];
    DispatchRuns(t, chunk);
    TotalOfOne(chunk);
    WrapSum(s.pending + |chunk|, -|chunk|);
    assert Wrap(t.pending - |chunk|) == s.pending;
  }

  /** One chunk all the way to JavaScript. */
  lemma DeliverOneRuns(s: State, chunk: Chunk, later: seq<Event>)
    requires Ready(s) && s.bodyQueue == []
    ensures Run(Next, s, [Receive(chunk), AcquireBody, QueueBody] + ([BodyCall, DispatchBody] + later)) ==
            Run(Next, WithDelivered(s, chunk), later)
  {
    ReceiveRuns(s, chunk);
    DispatchQueuedRuns(s, chunk);
    RunAppend(Next, s, [Receive(chunk), AcquireBody, QueueBody], [BodyCall, DispatchBody] + later);
    RunAppend(Next, WithQueued(s, [chunk]), [BodyCall, DispatchBody], later);
  }

  lemma {:induction false} DeliverRuns(s: State, chunks: seq<Chunk>)
    requires Ready(s) && s.bodyQueue == []
    ensures Run(Next, s, DeliverEvents(chunks)) ==
            Some(s.(received := s.received + chunks, dispatched := s.dispatched + chunks))
    decreases |chunks|
  {
    if chunks == [] {
      assert s.received + chunks == s.received && s.dispatched + chunks == s.dispatched;
    } else {
      var t := WithDelivered(s, chunks[0]);
      DeliverOneRuns(s, chunks[0], DeliverEvents(chunks[1..]));
      DeliverRuns(t, chunks[1..]);
      assert s.received + [chunks[0]] + chunks[1..] == s.received + chunks;
      assert s.dispatched + [chunks[0]] + chunks[1..] == s.dispatched + chunks;
    }
  }

  /** Delivers the first k chunks, queues the others and completes. */
  function OvertakingRun(chunks: seq<Chunk>, k: nat): seq<Event>
    requires k <= |chunks|
  {
    DeliverEvents(chunks[..k]) + (QueueEvents(chunks[k..]) + COMPLETE)
  }

  /** `events` receives exactly these chunks and hands completion over. */
  ghost predicate Completes(chunks: seq<Chunk>, events: seq<Event>) {
    var r := Run(Next, Init(true), events);
    r.Some? && r.value.completions != [] && r.value.received == chunks
  }

  function DispatchedBy(events: seq<Event>): seq<Chunk> {
    var r := Run(Next, Init(true), events);
    if r.Some? then r.value.dispatched else []
  }

  lemma CompleteRuns(s: State)
    requires Ready(s) && s.pending == 0 && s.completeQueue == [] && s.completions == []
    ensures var r := Run(Next, s, COMPLETE);
            r.Some? && r.value.completions == [0] && r.value.received == s.received && r.value.dispatched == s.dispatched
  {
    RunOfThree(Next, s, AcquireComplete(0), QueueComplete, CompleteCall);
  }

  lemma QueueAndCompleteRuns(s: State, chunks: seq<Chunk>)
    requires Ready(s) && s.pending == 0 && s.completeQueue == [] && s.completions == [] && Total(chunks) % TWO_64 == 0
    ensures var r := Run(Next, s, QueueEvents(chunks) + COMPLETE);
            && r.Some? && r.value.completions == [0]
            && r.value.received == s.received + chunks && r.value.dispatched == s.dispatched
  {
    QueueRuns(s, chunks);
    RunAppend(Next, s, QueueEvents(chunks), COMPLETE);
    assert Wrap(Total(chunks)) == 0 by { WrapSum(Total(chunks), 0); }
    CompleteRuns(WithQueued(s, chunks));
  }

  /** Chunks that count for nothing modulo the width of the counter can all be overtaken. */
  lemma OvertakingRunCompletes(chunks: seq<Chunk>, k: nat)
    requires k <= |chunks| && Total(chunks[k..]) % TWO_64 == 0
    ensures Completes(chunks, OvertakingRun(chunks, k)) && DispatchedBy(OvertakingRun(chunks, k)) == chunks[..k]
  {
    var s := Init(true).(received := chunks[..k], dispatched := chunks[..k]);
    DeliverRuns(Init(true), chunks[..k]);
    assert [] + chunks[..k] == chunks[..k];
    assert Run(Next, Init(true), DeliverEvents(chunks[..k])) == Some(s);
    RunAppend(Next, Init(true), DeliverEvents(chunks[..k]), QueueEvents(chunks[k..]) + COMPLETE);
    QueueAndCompleteRuns(s, chunks[k..]);
    assert chunks[..k] + chunks[k..] == chunks;
  }

  /** The shortest case: one zero-length chunk is still queued when completion is handed over. */
  lemma EmptyChunkMayBeOvertaken()
    ensures var chunks: seq<Chunk> := [[]];
            Completes(chunks, OvertakingRun(chunks, 0)) && DispatchedBy(OvertakingRun(chunks, 0)) == []
  {
    var chunks: seq<Chunk> := [[]];
    assert chunks[0..] == chunks;
    TotalOfOne([]);
    OvertakingRunCompletes(chunks, 0);
  }

  /** When completion is handed over, what has not been dispatched is a suffix of the chunks. */
  lemma OvertakenIsASuffix(chunks: seq<Chunk>, events: seq<Event>)
    requires Completes(chunks, events)
    ensures exists k :: 0 <= k <= |chunks| && DispatchedBy(events) == chunks[..k] && Total(chunks[k..]) % TWO_64 == 0
  {
    CompletionComesAfterTheBody(true, events);
    var s := Run(Next, Init(true), events).value;
    var k := |s.dispatched|;
    assert s.received == s.dispatched + s.bodyQueue;
    assert chunks[..k] == s.dispatched && chunks[k..] == s.bodyQueue;
  }

  /** No chunks received one after the other up to the last one have lengths that vanish in the counter. */
  ghost predicate NoTailVanishes(chunks: seq<Chunk>) {
    forall k :: 0 <= k < |chunks| ==> Total(chunks[k..]) % TWO_64 != 0
  }

  /** Every chunk is dispatched before completion, whatever the schedule, exactly when no tail of
      the chunks vanishes in the counter. */
  lemma EveryChunkPrecedesCompletionIff(chunks: seq<Chunk>)
    ensures NoTailVanishes(chunks) <==>
              forall events :: Completes(chunks, events) ==> DispatchedBy(events) == chunks
  {
    if NoTailVanishes(chunks) {
      forall events | Completes(chunks, events) ensures DispatchedBy(events) == chunks {
        OvertakenIsASuffix(chunks, events);
        assert chunks[..|chunks|] == chunks;
      }
    } else {
      var k :| 0 <= k < |chunks| && Total(chunks[k..]) % TWO_64 == 0;
      OvertakingRunCompletes(chunks, k);
      assert |DispatchedBy(OvertakingRun(chunks, k))| < |chunks|;
    }
  }

  lemma {:induction false} TotalOfTail(chunks: seq<Chunk>, k: nat)
    requires k <= |chunks|
    ensures Total(chunks[k..]) <= Total(chunks)
    ensures k < |chunks| ==> Total(chunks[k..]) >= |chunks[|chunks| - 1]|
  {
    assert chunks[..k] + chunks[k..] == chunks;
    TotalConcat(chunks[..k], chunks[k..]);
    if k < |chunks| {
      TotalCoversLast(chunks[k..]);
    }
  }

  lemma TotalCoversLast(chunks: seq<Chunk>)
    requires chunks != []
    ensures Total(chunks) >= |chunks[|chunks| - 1]|
  {
    var last := |chunks| - 1;
    assert chunks[..last] + [chunks[last]] == chunks;
    TotalConcat(chunks[..last], [chunks[last]]);
    TotalOfOne(chunks[last]);
  }

  lemma LastTailDecides(chunks: seq<Chunk>)
    requires Total(chunks) < TWO_64
    ensures NoTailVanishes(chunks) <==> chunks == [] || chunks[|chunks| - 1] != []
  {
    if chunks != [] {
      var last := |chunks| - 1;
      if chunks[last] == [] {
        assert chunks[last..] == [chunks[last]];
        TotalOfOne(chunks[last]);
      } else {
        forall k | 0 <= k < |chunks| ensures Total(chunks[k..]) % TWO_64 != 0 {
          TotalOfTail(chunks, k);
          SmallMultiple(Total(chunks[k..]));
        }
      }
    }
  }

  /** For a body shorter than 2^64 bytes the last chunk decides: completion can overtake a chunk
      exactly when the last one received is empty. */
  lemma LastChunkDecides(chunks: seq<Chunk>)
    requires Total(chunks) < TWO_64
    ensures chunks == [] || chunks[|chunks| - 1] != [] <==>
              forall events :: Completes(chunks, events) ==> DispatchedBy(events) == chunks
  {
    EveryChunkPrecedesCompletionIff(chunks);
    LastTailDecides(chunks);
  }

  /** No tail of the chunks adds up to a multiple of 2^64 other than zero. */
  ghost predicate NoTailWraps(chunks: seq<Chunk>) {
    forall k :: 0 <= k <= |chunks| && Total(chunks[k..]) % TWO_64 == 0 ==> Total(chunks[k..]) == 0
  }

  lemma BytesOfPrefix(chunks: seq<Chunk>, k: nat)
    requires k <= |chunks|
    ensures Bytes(chunks[..k]) == Bytes(chunks) <==> Total(chunks[k..]) == 0
  {
    var front, back := chunks[..k], chunks[k..];
    assert front + back == chunks;
    BytesConcat(front, back);
    BytesCounted(back);
    AppendsNothing(Bytes(front), Bytes(back));
  }

  lemma AppendsNothing(a: seq<byte>, b: seq<byte>)
    ensures a == a + b <==> |b| == 0
  {
  }

  /** Every byte is dispatched before completion, whatever the schedule, exactly when no tail of the
      chunks wraps around the counter. */
  lemma EveryBytePrecedesCompletionIff(chunks: seq<Chunk>)
    ensures NoTailWraps(chunks) <==>
              forall events :: Completes(chunks, events) ==> Bytes(DispatchedBy(events)) == Bytes(chunks)
  {
    if NoTailWraps(chunks) {
      forall events | Completes(chunks, events) ensures Bytes(DispatchedBy(events)) == Bytes(chunks) {
        OvertakenIsASuffix(chunks, events);
        var k :| 0 <= k <= |chunks| && DispatchedBy(events) == chunks[..k] && Total(chunks[k..]) % TWO_64 == 0;
        BytesOfPrefix(chunks, k);
      }
    } else {
      var k :| 0 <= k <= |chunks| && Total(chunks[k..]) % TWO_64 == 0 && Total(chunks[k..]) != 0;
      OvertakingRunCompletes(chunks, k);
      BytesOfPrefix(chunks, k);
    }
  }

  lemma {:induction false} BytesCounted(chunks: seq<Chunk>)
    ensures |Bytes(chunks)| == Total(chunks)
  {
    if chunks != [] {
      BytesCounted(chunks[1..]);
    }
  }

  // ---------------------------------------------------------------- completion is never stuck

  /** A completion call that has to wait leaves exactly one entry behind, and a body call to wait for. */
  lemma WaitingCompletionHasABodyCall(s: State)
    requires Inv(s) && Next(s, CompleteCall).Some? && s.pending != 0
    ensures var t := Next(s, CompleteCall).value;
            && t.completeQueue == s.completeQueue && |t.completeQueue| == 1
            && t.completions == []
            && Next(t, ReleaseRequeued) == Some(s)
            && s.bodyQueue != [] && Next(s, BodyCall).Some?
  {
    assert Outstanding(s) == s.bodyQueue;
  }

  function BodyCalls(events: seq<Event>): nat {
    if events == [] then 0 else (if events[0].BodyCall? then 1 else 0) + BodyCalls(events[1..])
  }

  lemma FinishedStep(s: State, e: Event)
    requires s.eventLoop.Finished? && Next(s, e).Some?
    ensures var t := Next(s, e).value;
            t.eventLoop.Finished? && |t.bodyQueue| == |s.bodyQueue| - (if e.BodyCall? then 1 else 0)
  {
  }

  /** After the event loop is finished, body calls and only they shrink the body queue. */
  lemma {:induction false} BodyQueueShrinks(s: State, events: seq<Event>)
    requires Inv(s) && s.eventLoop.Finished? && Run(Next, s, events).Some?
    ensures var t := Run(Next, s, events).value;
            Inv(t) && t.eventLoop.Finished? && |t.bodyQueue| == |s.bodyQueue| - BodyCalls(events)
    decreases |events|
  {
    if events != [] {
      StepKeepsInv(s, events[0]);
      FinishedStep(s, events[0]);
      BodyQueueShrinks(Next(s, events[0]).value, events[1..]);
    }
  }

  /** Requeueing ends: under any schedule that has served the queued bodies, the next completion
      call is the last one, and it returns the one error code. */
  lemma RequeueingEnds(s: State, events: seq<Event>)
    requires Inv(s) && s.eventLoop.Finished? && Run(Next, s, events).Some?
    requires BodyCalls(events) >= |s.bodyQueue|
    ensures var t := Run(Next, s, events).value;
            && t.pending == 0
            && BodyCalls(events) == |s.bodyQueue|
            && (t.node.Idle? ==>
                  && t.completeQueue != []
                  && Next(t, CompleteCall).Some?
                  && Next(t, CompleteCall).value.completions == t.completeQueue
                  && Next(t, CompleteCall).value.completeRefs == 0)
  {
    BodyQueueShrinks(s, events);
  }

  /** The completion function is referenced as long as an entry or the binding needs it, also while
      an entry is being put back. */
  lemma CompletionFunctionStaysAlive(hasBody: bool, events: seq<Event>)
    ensures var r := Run(Next, Init(hasBody), events);
            r.Some? ==>
              && (r.value.completeRefs == 0 <==> r.value.completions != [])
              && (r.value.node.Idle? ==> r.value.completeRefs == 1 + |r.value.completeQueue| + One(r.value.eventLoop.Completing?))
              && (r.value.node.Requeued? ==> r.value.completeRefs == 3)
  {
    RunsKeepInv(hasBody, events);
  }

  // ---------------------------------------------------------------- what goes in comes out

  /** The chunks and the error codes that the HTTP library reports in a run. */
  function ReportedChunks(events: seq<Event>): seq<Chunk> {
    if events == [] then []
    else (if events[0].Receive? then [events[0].chunk] else []) + ReportedChunks(events[1..])
  }

  function ReportedErrors(events: seq<Event>): seq<int> {
    if events == [] then []
    else (if events[0].AcquireComplete? then [events[0].error] else []) + ReportedErrors(events[1..])
  }

  /** Error codes handed over, queued, or about to be queued. */
  function Codes(s: State): seq<int> {
    s.completions + s.completeQueue + if s.eventLoop.Completing? then [s.eventLoop.error] else []
  }

  lemma StepCarriesCodes(s: State, e: Event)
    requires CompletionInv(s) && Next(s, e).Some?
    ensures Codes(Next(s, e).value) == Codes(s) + if e.AcquireComplete? then [e.error] else []
  {
    if e.CompleteCall? {
      assert |s.completeQueue| == 1 && s.completeQueue == [s.completeQueue[0]];
    }
  }

  lemma StepReceives(s: State, e: Event)
    requires Next(s, e).Some?
    ensures Next(s, e).value.hasBody == s.hasBody
    ensures Next(s, e).value.received == s.received + if e.Receive? && s.hasBody then [e.chunk] else []
  {
  }

  lemma Reassociate<X>(a: seq<X>, b: seq<X>, c: seq<X>)
    ensures (a + b) + c == a + (b + c)
  {
  }

  lemma {:induction false} RunsCarryCodes(s: State, events: seq<Event>)
    requires CompletionInv(s) && Run(Next, s, events).Some?
    ensures Codes(Run(Next, s, events).value) == Codes(s) + ReportedErrors(events)
    decreases |events|
  {
    if events == [] {
      assert Codes(s) + [] == Codes(s);
    } else {
      var e := events[0];
      StepKeepsCompletion(s, e);
      StepCarriesCodes(s, e);
      RunsCarryCodes(Next(s, e).value, events[1..]);
      Reassociate(Codes(s), if e.AcquireComplete? then [e.error] else [], ReportedErrors(events[1..]));
    }
  }

  lemma {:induction false} RunsCarryChunks(s: State, events: seq<Event>)
    requires Run(Next, s, events).Some?
    ensures Run(Next, s, events).value.received == s.received + if s.hasBody then ReportedChunks(events) else []
    decreases |events|
  {
    if events == [] {
      assert s.received + [] == s.received;
    } else {
      var e := events[0];
      StepReceives(s, e);
      RunsCarryChunks(Next(s, e).value, events[1..]);
      if s.hasBody {
        Reassociate(s.received, if e.Receive? then [e.chunk] else [], ReportedChunks(events[1..]));
      }
    }
  }

  /** In every run the chunks received are those the library reported, and a code handed to JavaScript
      is the one code reported. */
  lemma ReportsReachJavaScript(hasBody: bool, events: seq<Event>)
    ensures var r := Run(Next, Init(hasBody), events);
            r.Some? ==>
              && r.value.received == (if hasBody then ReportedChunks(events) else [])
              && (r.value.completions != [] ==> r.value.completions == ReportedErrors(events))
  {
    RunsKeepInv(hasBody, events);
    var r := Run(Next, Init(hasBody), events);
    if r.Some? {
      RunsCarryCodes(Init(hasBody), events);
      assert Codes(Init(hasBody)) == [];
      if r.value.completions != [] {
        assert Codes(r.value) == r.value.completions;
      }
      RunsCarryChunks(Init(hasBody), events);
    }
  }

  // ---------------------------------------------------------------- the callbacks as written

  /** The binding, with each source callback run without interruption: each method is a run of the
      protocol, so everything proved of runs holds of any sequence of calls. */
  class HttpStreamBinding {
    const onBody: bool
    var pendingLength: nat
    var bodyQueue: seq<Chunk>
    var completeQueue: seq<int>
    var bodyRefs: int
    var completeRefs: int
    ghost var eventLoop: EventLoop
    ghost var node: Node
    ghost var received: seq<Chunk>
    ghost var dispatched: seq<Chunk>
    ghost var completions: seq<int>

    ghost function Value(): State
      reads this
    {
      State(onBody, eventLoop, node, pendingLength, bodyQueue, completeQueue, bodyRefs, completeRefs,
            received, dispatched, completions)
    }

    constructor (hasBody: bool)
      ensures Value() == Init(hasBody)
    {
      onBody := hasBody;
      pendingLength, bodyQueue, completeQueue := 0, [], [];
      bodyRefs, completeRefs := if hasBody then 1 else 0, 1;
      eventLoop, node := Receiving, Idle;
      received, dispatched, completions := [], [], [];
    }

    /** s_on_response_body, on the event-loop thread. */
    method OnResponseBody(data: Chunk)
      requires eventLoop.Receiving?
      modifies this
      ensures Some(Value()) == if onBody then Run(Next, old(Value()), [Receive(data), AcquireBody, QueueBody]) else Some(old(Value()))
    {
      if !onBody {
        return;
      }
      RunOfThree(Next, Value(), Receive(data), AcquireBody, QueueBody);
      pendingLength := Add(pendingLength, |data|);
      received := received + [data];
      bodyRefs := bodyRefs + 1;
      bodyQueue := bodyQueue + [data];
    }

    /** s_on_body_call, on the Node thread. */
    method OnBodyCall() returns (handed: Chunk)
      requires node.Idle? && bodyQueue != []
      modifies this
      ensures handed == old(bodyQueue)[0]
      ensures Some(Value()) == Run(Next, old(Value()), [BodyCall, DispatchBody])
    {
      RunOfTwo(Next, Value(), BodyCall, DispatchBody);
      handed := bodyQueue[0];
      bodyQueue := bodyQueue[1..];
      pendingLength := Sub(pendingLength, |handed|);
      dispatched := dispatched + [handed];
      bodyRefs := bodyRefs - 1;
    }

    /** s_on_complete, on the event-loop thread. */
    method OnComplete(error: int)
      requires eventLoop.Receiving?
      modifies this
      ensures Some(Value()) == Run(Next, old(Value()), [AcquireComplete(error), QueueComplete])
    {
      RunOfTwo(Next, Value(), AcquireComplete(error), QueueComplete);
      completeRefs := completeRefs + 1;
      completeQueue := completeQueue + [error];
      eventLoop := Finished;
    }

    /** The branch of s_on_complete_call that waits its turn again. */
    method RequeueCompletion(error: int)
      requires node.Idle? && pendingLength != 0
      modifies this`completeQueue, this`completeRefs
      ensures completeQueue == old(completeQueue) + [error] && completeRefs == old(completeRefs)
    {
      completeRefs := completeRefs + 1;
      completeQueue := completeQueue + [error];
      completeRefs := completeRefs - 1;
    }

    /** The branch that completes and gives the functions up. */
    method FinishCompletion(error: int)
      modifies this`completeRefs, this`completions, this`node, this`bodyRefs
      ensures completeRefs == old(completeRefs) - 2 && completions == old(completions) + [error] && node == Done
      ensures bodyRefs == old(bodyRefs) - if onBody then 1 else 0
    {
      completeRefs := completeRefs - 1;
      completions := completions + [error];
      node := Done;
      if onBody {
        bodyRefs := bodyRefs - 1;
      }
      completeRefs := completeRefs - 1;
    }

    /** s_on_complete_call, on the Node thread: waits its turn again, or completes and cleans up. */
    method OnCompleteCall() returns (completed: Option<int>)
      requires node.Idle? && completeQueue != []
      modifies this
      ensures completed == if old(pendingLength) != 0 then None else Some(old(completeQueue)[0])
      ensures Some(Value()) == if completed.None? then Run(Next, old(Value()), [CompleteCall, ReleaseRequeued])
                               else Next(old(Value()), CompleteCall)
    {
      RunOfTwo(Next, Value(), CompleteCall, ReleaseRequeued);
      var error := completeQueue[0];
      completeQueue := completeQueue[1..];
      if pendingLength != 0 {
        RequeueCompletion(error);
        return None;
      }
      FinishCompletion(error);
      return Some(error);
    }
  }
}
