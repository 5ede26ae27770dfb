/** Ownership of an `on_publish` threadsafe function, of its argument blocks and of message payloads.

The subscription, every message under construction and every queued call hold references to one
function. A message is named by a number; its argument block and its payload block carry that
number. `freedArgs` and `freedPayloads` count how often each block has been released.
*/
module PublishOwnership {
  import opened Runs

  type Message = nat

  /** s_on_publish, on the event-loop thread. */
  datatype Builder =
    | Resting
    | Acquired(args: Message)      // argument block allocated, own reference taken
    | WithPayload(args: Message)   // payload block allocated, owned by the argument block
    | Pinned(args: Message)        // reference for the queued call taken, not queued yet

  /** s_on_publish_call, on the Node thread. */
  datatype Caller =
    | Waiting
    | Transferred(args: Message)   // payload now belongs to an external ArrayBuffer
    | Dispatched(args: Message)    // JavaScript has been called, the queue's reference is gone
    | Skipped(args: Message)       // no environment: nothing was transferred or dispatched

  /** How a queued call ended. */
  datatype Outcome = Delivered(message: Message) | NoEnvironment(message: Message)

  /** `queued` is every message ever put in the queue, `taken` how each call taken off it has ended,
      `dispatched` what has reached JavaScript, `leaked` how many references were never given back. */
  datatype History = History(queued: seq<Message>, taken: seq<Outcome>, dispatched: seq<Message>, leaked: nat)

  datatype State = State(
    refs: int,
    subscribed: bool,
    builder: Builder,
    queue: seq<Message>,
    caller: Caller,
    external: multiset<Message>,
    nextMessage: Message,
    allocatedPayloads: set<Message>,
    freedArgs: seq<Message>,
    freedPayloads: seq<Message>,
    history: History)

  datatype Event =
    | BeginMessage        // allocate the arguments and acquire the function
    | FailBuild           // the topic or the payload cannot be copied
    | AllocatePayload
    | AcquireCall         // aws_napi_queue_threadsafe_function takes a reference first
    | QueueCall
    | Unsubscribe
    | CallWithEnv         // create the external ArrayBuffer and give up the payload
    | CallWithoutEnv
    | Dispatch
    | DestroyArgs
    | Finalize(payload: Message)

  /** aws_napi_create_threadsafe_function hands the subscription the first reference. */
  function Init(): State {
    State(1, true, Resting, [], Waiting, multiset{}, 0, {}, [], [], History([], [], [], 0))
  }

  function WithDelivered(h: History, m: Message): History {
    h.(taken := h.taken + [Delivered(m)], dispatched := h.dispatched + [m])
  }

  /** Without an environment nothing is called, and the reference of the queued call stays. */
  function WithSkipped(h: History, m: Message): History {
    h.(taken := h.taken + [NoEnvironment(m)], leaked := h.leaked + 1)
  }

  function Next(s: State, e: Event): Option<State> {
    match e
    case BeginMessage =>
      if !s.builder.Resting? || !s.subscribed then None
      else Some(s.(builder := Acquired(s.nextMessage), refs := s.refs + 1, nextMessage := s.nextMessage + 1))
    case FailBuild =>
      if s.builder.Resting? || s.builder.Pinned? then None
      else Some(s.(builder := Resting, refs := s.refs - 1,
                   freedArgs := s.freedArgs + [s.builder.args],
                   freedPayloads := if s.builder.WithPayload? then s.freedPayloads + [s.builder.args] else s.freedPayloads))
    case AllocatePayload =>
      if !s.builder.Acquired? then None
      else Some(s.(builder := WithPayload(s.builder.args),
                   allocatedPayloads := s.allocatedPayloads + {s.builder.args}))
    case AcquireCall =>
      if !s.builder.WithPayload? then None
      else Some(s.(builder := Pinned(s.builder.args), refs := s.refs + 1))
    case QueueCall =>
      if !s.builder.Pinned? then None
      else Some(s.(builder := Resting, queue := s.queue + [s.builder.args],
                   history := s.history.(queued := s.history.queued + [s.builder.args])))
    case Unsubscribe =>
      if !s.builder.Resting? || !s.subscribed then None
      else Some(s.(subscribed := false, refs := s.refs - 1))
    case CallWithEnv =>
      if !s.caller.Waiting? || s.queue == [] then None
      else Some(s.(caller := Transferred(s.queue[0]), queue := s.queue[1..],
                   external := s.external + multiset{s.queue[0]}))
    case CallWithoutEnv =>
      if !s.caller.Waiting? || s.queue == [] then None
      else Some(s.(caller := Skipped(s.queue[0]), queue := s.queue[1..]))
    case Dispatch =>
      if !s.caller.Transferred? then None
      else Some(s.(caller := Dispatched(s.caller.args), refs := s.refs - 1,
                   history := WithDelivered(s.history, s.caller.args)))
    case DestroyArgs =>
      if s.caller.Waiting? || s.caller.Transferred? then None
      else Some(s.(caller := Waiting, refs := s.refs - 1,
                   freedArgs := s.freedArgs + [s.caller.args],
                   freedPayloads := if s.caller.Skipped? then s.freedPayloads + [s.caller.args] else s.freedPayloads,
                   history := if s.caller.Skipped? then WithSkipped(s.history, s.caller.args) else s.history))
    case Finalize(p) =>
      if p !in s.external then None
      else Some(s.(external := s.external - multiset{p}, freedPayloads := s.freedPayloads + [p]))
  }

  // ---------------------------------------------------------------- who holds what

  function BuilderRefs(b: Builder): nat {
    match b
    case Resting => 0
    case Pinned(_) => 2
    case _ => 1
  }

  function CallerRefs(c: Caller): nat {
    match c
    case Waiting => 0
    case Dispatched(_) => 1
    case _ => 2
  }

  /** One for the subscription, two for each queued message, those in the hands of the two threads,
      and one for each call that found no environment and never released the queue's reference. */
  ghost predicate RefsInv(s: State) {
    s.refs == (if s.subscribed then 1 else 0) + 2 * |s.queue| + BuilderRefs(s.builder) + CallerRefs(s.caller) + s.history.leaked
  }

  function One(b: bool): nat { if b then 1 else 0 }

  /** How many holders can reach the argument block of m. */
  function ArgsHolders(s: State, m: Message): nat {
    One(!s.builder.Resting? && s.builder.args == m) + multiset(s.queue)[m] + One(!s.caller.Waiting? && s.caller.args == m)
  }

  /** How many argument blocks own the payload of m. */
  function PayloadOwners(s: State, m: Message): nat {
    One(s.builder == WithPayload(m) || s.builder == Pinned(m)) + multiset(s.queue)[m] + One(s.caller == Skipped(m))
  }

  /** Each block of m, if allocated, is held or freed, and counted once. */
  ghost predicate ArgsInv(s: State, m: Message) {
    ArgsHolders(s, m) + multiset(s.freedArgs)[m] == One(m < s.nextMessage)
  }

  ghost predicate PayloadInv(s: State, m: Message) {
    && PayloadOwners(s, m) + s.external[m] + multiset(s.freedPayloads)[m] == One(m in s.allocatedPayloads)
    && (m in s.allocatedPayloads ==> m < s.nextMessage)
    && (s.builder == Acquired(m) ==> m !in s.allocatedPayloads && m < s.nextMessage)
  }

  ghost predicate BlocksInv(s: State, m: Message) { ArgsInv(s, m) && PayloadInv(s, m) }

  lemma StepKeepsRefs(s: State, e: Event)
    requires RefsInv(s) && Next(s, e).Some?
    ensures RefsInv(Next(s, e).value)
  {
  }

  lemma QueueFront(q: seq<Message>)
    requires q != []
    ensures multiset(q) == multiset{q[0]} + multiset(q[1..])
  {
    assert q == [q[0]] + q[1..];
  }

  lemma StepKeepsArgs(s: State, e: Event, m: Message)
    requires ArgsInv(s, m) && Next(s, e).Some?
    ensures ArgsInv(Next(s, e).value, m)
  {
    if e.CallWithEnv? || e.CallWithoutEnv? {
      QueueFront(s.queue);
    }
  }

  lemma BuilderStepKeepsPayload(s: State, e: Event, m: Message)
    requires PayloadInv(s, m) && Next(s, e).Some?
    requires e.BeginMessage? || e.FailBuild? || e.AllocatePayload? || e.AcquireCall? || e.QueueCall? || e.Unsubscribe?
    ensures PayloadInv(Next(s, e).value, m)
  {
  }

  lemma CallStepKeepsPayload(s: State, e: Event, m: Message)
    requires PayloadInv(s, m) && Next(s, e).Some? && (e.CallWithEnv? || e.CallWithoutEnv?)
    ensures PayloadInv(Next(s, e).value, m)
  {
    QueueFront(s.queue);
  }

  lemma LateStepKeepsPayload(s: State, e: Event, m: Message)
    requires PayloadInv(s, m) && Next(s, e).Some? && (e.Dispatch? || e.DestroyArgs? || e.Finalize?)
    ensures PayloadInv(Next(s, e).value, m)
  {
  }

  lemma StepKeepsPayload(s: State, e: Event, m: Message)
    requires PayloadInv(s, m) && Next(s, e).Some?
    ensures PayloadInv(Next(s, e).value, m)
  {
    if e.CallWithEnv? || e.CallWithoutEnv? {
      CallStepKeepsPayload(s, e, m);
    } else if e.Dispatch? || e.DestroyArgs? || e.Finalize? {
      LateStepKeepsPayload(s, e, m);
    } else {
      BuilderStepKeepsPayload(s, e, m);
    }
  }

  lemma RunsKeepRefs(events: seq<Event>)
    ensures Run(Next, Init(), events).Some? ==> RefsInv(Run(Next, Init(), events).value)
  {
    forall a, e | RefsInv(a) && Next(a, e).Some? ensures RefsInv(Next(a, e).value) {
      StepKeepsRefs(a, e);
    }
    InvariantOfRuns(Next, RefsInv, Init(), events);
  }

  lemma RunsKeepBlocks(events: seq<Event>, m: Message)
    ensures Run(Next, Init(), events).Some? ==> BlocksInv(Run(Next, Init(), events).value, m)
  {
    var inv := (s: State) => BlocksInv(s, m);
    forall a, e | inv(a) && Next(a, e).Some? ensures inv(Next(a, e).value) {
      StepKeepsArgs(a, e, m);
      StepKeepsPayload(a, e, m);
    }
    InvariantOfRuns(Next, inv, Init(), events);
  }

  ghost predicate Quiet(s: State) { s.builder.Resting? && s.caller.Waiting? }

  /** Reference counting over every interleaving. The function goes away exactly when the
      subscription is gone, nothing is queued or in hand, and no call ever lacked an environment. */
  lemma ReferencesMatchHolders(events: seq<Event>)
    ensures var r := Run(Next, Init(), events);
            r.Some? ==>
              var s := r.value;
              && (Quiet(s) ==> s.refs == (if s.subscribed then 1 else 0) + 2 * |s.queue| + s.history.leaked)
              && (s.refs == 0 <==> !s.subscribed && s.queue == [] && Quiet(s) && s.history.leaked == 0)
              && s.refs >= 0
              && (s.subscribed || !Quiet(s) || s.queue != [] ==> s.refs > 0)
  {
    RunsKeepRefs(events);
  }

  /** Every block is freed at most once, a payload never by both the destructor and the finalizer,
      and nothing that anyone can still reach has been freed. */
  lemma BlocksAreFreedOnce(events: seq<Event>, m: Message)
    ensures var r := Run(Next, Init(), events);
            r.Some? ==>
              var s := r.value;
              && multiset(s.freedArgs)[m] <= 1 && multiset(s.freedPayloads)[m] <= 1
              && (multiset(s.freedArgs)[m] == 1 <==> m < s.nextMessage && ArgsHolders(s, m) == 0)
              && (multiset(s.freedPayloads)[m] == 1 <==> m in s.allocatedPayloads && PayloadOwners(s, m) == 0 && m !in s.external)
              && (m in s.external ==> s.external[m] == 1 && PayloadOwners(s, m) == 0)
  {
    RunsKeepBlocks(events, m);
  }

  /** When nothing is queued, in hand or still wrapped by an ArrayBuffer, everything has been freed. */
  lemma NothingIsLeftBehind(events: seq<Event>, m: Message)
    ensures var r := Run(Next, Init(), events);
            r.Some? && Quiet(r.value) && r.value.queue == [] && r.value.external == multiset{} ==>
              && (m < r.value.nextMessage ==> multiset(r.value.freedArgs)[m] == 1)
              && (m in r.value.allocatedPayloads ==> multiset(r.value.freedPayloads)[m] == 1)
  {
    RunsKeepBlocks(events, m);
  }

  // ---------------------------------------------------------------- delivery order

  /** Messages in the order they will reach, or have reached, JavaScript. */
  function Line(s: State): seq<Message> {
    s.history.dispatched
    + InHand(s.caller)
    + s.queue
    + (if s.builder.Resting? then [] else [s.builder.args])
  }

  ghost predicate Increasing(l: seq<Message>, bound: nat) {
    && (forall i, j :: 0 <= i < j < |l| ==> l[i] < l[j])
    && (forall i :: 0 <= i < |l| ==> l[i] < bound)
  }

  ghost predicate OrderInv(s: State) { Increasing(Line(s), s.nextMessage) }

  lemma TakingMovesTheLine(s: State, e: Event)
    requires Next(s, e).Some? && (e.CallWithEnv? || e.CallWithoutEnv?)
    ensures Line(Next(s, e).value) == Line(s)
  {
    assert s.queue == [s.queue[0]] + s.queue[1..];
    assert s.history.dispatched + [s.queue[0]] + s.queue[1..] == s.history.dispatched + [] + s.queue;
  }

  /** Most steps only move the line along. */
  lemma LineMoves(s: State, e: Event)
    requires Next(s, e).Some?
    requires e.AcquireCall? || e.QueueCall? || e.CallWithEnv? || e.CallWithoutEnv? || e.Dispatch?
    ensures Line(Next(s, e).value) == Line(s)
  {
    if e.CallWithEnv? || e.CallWithoutEnv? {
      TakingMovesTheLine(s, e);
    }
  }

  /** The others add the newest message at the end or take one message out. */
  lemma LineGrows(s: State)
    requires Next(s, BeginMessage).Some?
    ensures Line(Next(s, BeginMessage).value) == Line(s) + [s.nextMessage]
  {
  }

  lemma LineLosesLast(s: State)
    requires Next(s, FailBuild).Some?
    ensures var k := |Line(s)| - 1;
            Line(Next(s, FailBuild).value) == Line(s)[..k] + Line(s)[k + 1..]
  {
  }

  lemma LineLosesSkipped(s: State)
    requires Next(s, DestroyArgs).Some? && s.caller.Skipped?
    ensures var k := |s.history.dispatched|;
            k < |Line(s)| && Line(Next(s, DestroyArgs).value) == Line(s)[..k] + Line(s)[k + 1..]
  {
    var k := |s.history.dispatched|;
    assert Line(s)[..k] == s.history.dispatched;
    assert Line(s)[k + 1..] == s.queue + (if s.builder.Resting? then [] else [s.builder.args]);
  }

  lemma Spliced(l: seq<Message>, k: nat, bound: nat)
    requires Increasing(l, bound) && k < |l|
    ensures Increasing(l[..k] + l[k + 1..], bound)
  {
  }

  lemma StepKeepsOrder(s: State, e: Event)
    requires OrderInv(s) && Next(s, e).Some?
    ensures OrderInv(Next(s, e).value)
  {
    match e
    case BeginMessage =>
      LineGrows(s);
    case FailBuild =>
      LineLosesLast(s);
      Spliced(Line(s), |Line(s)| - 1, s.nextMessage);
    case DestroyArgs =>
      if s.caller.Skipped? {
        LineLosesSkipped(s);
        Spliced(Line(s), |s.history.dispatched|, s.nextMessage);
      }
    case Unsubscribe =>
    case AllocatePayload =>
    case Finalize(_) =>
    case _ =>
      LineMoves(s, e);
  }

  lemma RunsKeepOrder(events: seq<Event>)
    ensures Run(Next, Init(), events).Some? ==> OrderInv(Run(Next, Init(), events).value)
  {
    forall a, e | OrderInv(a) && Next(a, e).Some? ensures OrderInv(Next(a, e).value) {
      StepKeepsOrder(a, e);
    }
    InvariantOfRuns(Next, OrderInv, Init(), events);
  }

  // ---------------------------------------------------------------- what becomes of each queued message

  function Messages(taken: seq<Outcome>): seq<Message> {
    seq(|taken|, i requires 0 <= i < |taken| => taken[i].message)
  }

  /** The messages of the calls that had an environment. */
  function DeliveredOf(taken: seq<Outcome>): seq<Message> {
    if taken == [] then []
    else
      var last := taken[|taken| - 1];
      DeliveredOf(taken[..|taken| - 1]) + if last.Delivered? then [last.message] else []
  }

  lemma TakeOne(taken: seq<Outcome>, o: Outcome)
    ensures Messages(taken + [o]) == Messages(taken) + [o.message]
    ensures DeliveredOf(taken + [o]) == DeliveredOf(taken) + if o.Delivered? then [o.message] else []
  {
    assert (taken + [o])[..|taken|] == taken;
  }

  /** The message of a call that has not ended. */
  function InHand(c: Caller): seq<Message> { if c.Transferred? || c.Skipped? then [c.args] else [] }

  ghost predicate TakenInv(s: State) {
    && Messages(s.history.taken) + InHand(s.caller) + s.queue == s.history.queued
    && DeliveredOf(s.history.taken) == s.history.dispatched
    && |s.history.taken| == |s.history.dispatched| + s.history.leaked
  }

  lemma TakingOffTheQueueKeepsTaken(s: State, e: Event)
    requires TakenInv(s) && Next(s, e).Some? && (e.CallWithEnv? || e.CallWithoutEnv?)
    ensures TakenInv(Next(s, e).value)
  {
    assert s.queue == [s.queue[0]] + s.queue[1..];
    assert Messages(s.history.taken) + [s.queue[0]] + s.queue[1..] == Messages(s.history.taken) + s.queue;
  }

  lemma EndingACallKeepsTaken(s: State, e: Event)
    requires TakenInv(s) && Next(s, e).Some? && (e.Dispatch? || e.DestroyArgs?)
    ensures TakenInv(Next(s, e).value)
  {
    TakeOne(s.history.taken, if e.Dispatch? then Delivered(s.caller.args) else NoEnvironment(s.caller.args));
    assert Messages(s.history.taken) + [s.caller.args] + [] == Messages(s.history.taken) + [s.caller.args];
  }

  lemma QueueingKeepsTaken(s: State)
    requires TakenInv(s) && Next(s, QueueCall).Some?
    ensures TakenInv(Next(s, QueueCall).value)
  {
    var before := Messages(s.history.taken) + InHand(s.caller);
    assert before + (s.queue + [s.builder.args]) == (before + s.queue) + [s.builder.args];
  }

  lemma StepKeepsTaken(s: State, e: Event)
    requires TakenInv(s) && Next(s, e).Some?
    ensures TakenInv(Next(s, e).value)
  {
    if e.CallWithEnv? || e.CallWithoutEnv? {
      TakingOffTheQueueKeepsTaken(s, e);
    } else if e.Dispatch? || e.DestroyArgs? {
      EndingACallKeepsTaken(s, e);
    } else if e.QueueCall? {
      QueueingKeepsTaken(s);
    }
  }

  lemma RunsKeepTaken(events: seq<Event>)
    ensures Run(Next, Init(), events).Some? ==> TakenInv(Run(Next, Init(), events).value)
  {
    forall a, e | TakenInv(a) && Next(a, e).Some? ensures TakenInv(Next(a, e).value) {
      StepKeepsTaken(a, e);
    }
    InvariantOfRuns(Next, TakenInv, Init(), events);
  }

  /** Messages reach JavaScript in the order they were published, each at most once. The queue is
      served in order, and exactly the calls that had an environment were dispatched. */
  lemma MessagesArriveInOrder(events: seq<Event>)
    ensures var r := Run(Next, Init(), events);
            r.Some? ==>
              var s := r.value;
              && (forall i, j :: 0 <= i < j < |s.history.dispatched| ==> s.history.dispatched[i] < s.history.dispatched[j])
              && Messages(s.history.taken) + InHand(s.caller) + s.queue == s.history.queued
              && DeliveredOf(s.history.taken) == s.history.dispatched
              && |s.history.taken| == |s.history.dispatched| + s.history.leaked
  {
    RunsKeepOrder(events);
    RunsKeepTaken(events);
    var r := Run(Next, Init(), events);
    if r.Some? {
      assert forall i :: 0 <= i < |r.value.history.dispatched| ==> Line(r.value)[i] == r.value.history.dispatched[i];
    }
  }

  // ---------------------------------------------------------------- the callbacks as written

  /** What s_on_publish does as a whole, by how far it gets. */
  function PublishEvents(topicCopied: bool, payloadAllocated: bool, payloadCopied: bool): seq<Event> {
    if !topicCopied || !payloadAllocated then [BeginMessage, FailBuild]
    else if !payloadCopied then [BeginMessage, AllocatePayload, FailBuild]
    else [BeginMessage, AllocatePayload] + [AcquireCall, QueueCall]
  }

  /** Only a message whose topic and payload were both copied is queued, with two references. */
  function AfterPublish(s: State, topicCopied: bool, payloadAllocated: bool, payloadCopied: bool): State {
    var m := s.nextMessage;
    var owned := topicCopied && payloadAllocated;
    var queued := owned && payloadCopied;
    s.(nextMessage := m + 1,
       refs := if queued then s.refs + 2 else s.refs,
       queue := if queued then s.queue + [m] else s.queue,
       history := if queued then s.history.(queued := s.history.queued + [m]) else s.history,
       allocatedPayloads := if owned then s.allocatedPayloads + {m} else s.allocatedPayloads,
       freedArgs := if queued then s.freedArgs else s.freedArgs + [m],
       freedPayloads := if owned && !queued then s.freedPayloads + [m] else s.freedPayloads)
  }

  lemma PublishEffect(s: State, topicCopied: bool, payloadAllocated: bool, payloadCopied: bool)
    requires s.subscribed && s.builder.Resting?
    ensures Run(Next, s, PublishEvents(topicCopied, payloadAllocated, payloadCopied))
         == Some(AfterPublish(s, topicCopied, payloadAllocated, payloadCopied))
  {
    if !topicCopied || !payloadAllocated {
      RunOfTwo(Next, s, BeginMessage, FailBuild);
    } else if !payloadCopied {
      RunOfThree(Next, s, BeginMessage, AllocatePayload, FailBuild);
    } else {
      RunOfTwo(Next, s, BeginMessage, AllocatePayload);
      var t := Run(Next, s, [BeginMessage, AllocatePayload]).value;
      RunOfTwo(Next, t, AcquireCall, QueueCall);
      RunAppend(Next, s, [BeginMessage, AllocatePayload], [AcquireCall, QueueCall]);
    }
  }

  /** What s_on_publish_call does as a whole. */
  function CallEvents(env: bool): seq<Event> {
    if env then [CallWithEnv, Dispatch, DestroyArgs] else [CallWithoutEnv, DestroyArgs]
  }

  /** A call with an environment gives back both references of its message; a call without one
      gives back only one, and frees the payload itself. */
  function AfterCall(s: State, env: bool): State
    requires s.queue != []
  {
    var m := s.queue[0];
    s.(queue := s.queue[1..],
       refs := s.refs - if env then 2 else 1,
       external := if env then s.external + multiset{m} else s.external,
       freedArgs := s.freedArgs + [m],
       freedPayloads := if env then s.freedPayloads else s.freedPayloads + [m],
       history := if env then WithDelivered(s.history, m) else WithSkipped(s.history, m))
  }

  lemma CallEffect(s: State, env: bool)
    requires s.caller.Waiting? && s.queue != []
    ensures Run(Next, s, CallEvents(env)) == Some(AfterCall(s, env))
  {
    var m := s.queue[0];
    if env {
      var t := s.(caller := Transferred(m), queue := s.queue[1..], external := s.external + multiset{m});
      assert Next(s, CallWithEnv) == Some(t);
      var u := t.(caller := Dispatched(m), refs := s.refs - 1, history := WithDelivered(s.history, m));
      assert Next(t, Dispatch) == Some(u);
      assert Next(u, DestroyArgs) == Some(AfterCall(s, env));
      RunOfThree(Next, s, CallWithEnv, Dispatch, DestroyArgs);
    } else {
      var t := s.(caller := Skipped(m), queue := s.queue[1..]);
      assert Next(s, CallWithoutEnv) == Some(t);
      assert Next(t, DestroyArgs) == Some(AfterCall(s, env));
      RunOfTwo(Next, s, CallWithoutEnv, DestroyArgs);
    }
  }

  /** s_on_publish queues its message exactly when topic and payload were copied, and otherwise frees
      what it allocated. */
  lemma CompleteMessagesAreQueued(s: State, topicCopied: bool, payloadAllocated: bool, payloadCopied: bool)
    requires s.subscribed && s.builder.Resting?
    ensures var r := Run(Next, s, PublishEvents(topicCopied, payloadAllocated, payloadCopied));
            var complete := topicCopied && payloadAllocated && payloadCopied;
            && r.Some?
            && r.value.queue == s.queue + (if complete then [s.nextMessage] else [])
            && r.value.freedArgs == s.freedArgs + (if complete then [] else [s.nextMessage])
  {
    PublishEffect(s, topicCopied, payloadAllocated, payloadCopied);
    assert s.queue + [] == s.queue && s.freedArgs + [] == s.freedArgs;
  }

  /** s_on_publish_call hands the oldest message to JavaScript, with its payload, exactly when there is
      an environment; the message leaves the queue in any case. */
  lemma CallsWithEnvironmentDispatch(s: State, env: bool)
    requires s.caller.Waiting? && s.queue != []
    ensures var r := Run(Next, s, CallEvents(env));
            && r.Some? && r.value.queue == s.queue[1..]
            && r.value.history.dispatched == s.history.dispatched + (if env then [s.queue[0]] else [])
            && r.value.external == s.external + (if env then multiset{s.queue[0]} else multiset{})
  {
    CallEffect(s, env);
    assert s.history.dispatched + [] == s.history.dispatched && s.external + multiset{} == s.external;
  }

  /** The finalizer of an ArrayBuffer frees its payload, once for each ArrayBuffer that wraps it, and
      touches nothing else. */
  lemma FinalizerFreesThePayload(s: State, m: Message)
    ensures Next(s, Finalize(m)).Some? <==> m in s.external
    ensures m in s.external ==>
              var t := Next(s, Finalize(m)).value;
              && t.external[m] == s.external[m] - 1 && t.freedPayloads == s.freedPayloads + [m]
              && t == s.(external := t.external, freedPayloads := t.freedPayloads)
              && (forall k :: k != m ==> t.external[k] == s.external[k])
  {
  }

  const LEAK: seq<Event> := PublishEvents(true, true, true) + (CallEvents(false) + [Unsubscribe])

  /** One message called without an environment: after the unsubscribe nothing is held, and one
      reference is left. */
  lemma CallWithoutEnvironmentLeavesAReference()
    ensures var r := Run(Next, Init(), LEAK);
            r.Some? && !r.value.subscribed && r.value.queue == [] && Quiet(r.value) && r.value.refs == 1
  {
    var s := AfterPublish(Init(), true, true, true);
    PublishEffect(Init(), true, true, true);
    RunAppend(Next, Init(), PublishEvents(true, true, true), CallEvents(false) + [Unsubscribe]);
    var t := AfterCall(s, false);
    CallEffect(s, false);
    RunAppend(Next, s, CallEvents(false), [Unsubscribe]);
    assert [Unsubscribe][1..] == [];
    assert Run(Next, t, [Unsubscribe]) == Next(t, Unsubscribe);
    assert s.queue == [0] && t.queue == [];
  }

  /** One subscription's function with the blocks that refer to it. Each method is a source callback
      run without interruption; PublishEffect and CallEffect show its effect to be a run of the protocol. */
  class OnPublishFunction {
    var refs: int
    var queue: seq<Message>
    var nextMessage: Message
    ghost var subscribed: bool
    ghost var builder: Builder
    ghost var caller: Caller
    ghost var external: multiset<Message>
    ghost var allocatedPayloads: set<Message>
    ghost var freedArgs: seq<Message>
    ghost var freedPayloads: seq<Message>
    ghost var history: History

    ghost function Value(): State
      reads this
    {
      State(refs, subscribed, builder, queue, caller, external, nextMessage, allocatedPayloads,
            freedArgs, freedPayloads, history)
    }

    constructor ()
      ensures Value() == Init()
    {
      refs, queue, nextMessage := 1, [], 0;
      subscribed, builder, caller := true, Resting, Waiting;
      external, allocatedPayloads, freedArgs, freedPayloads := multiset{}, {}, [], [];
      history := History([], [], [], 0);
    }

    /** s_destroy_on_publish_args: releases the block's reference and whatever the block still owns. */
    method DestroyOnPublishArgs(args: Message, payload: Option<Message>)
      modifies this`refs, this`freedArgs, this`freedPayloads
      ensures refs == old(refs) - 1
      ensures freedArgs == old(freedArgs) + [args]
      ensures freedPayloads == if payload.Some? then old(freedPayloads) + [payload.value] else old(freedPayloads)
    {
      refs := refs - 1;
      match payload {
        case None =>
        case Some(p) => freedPayloads := freedPayloads + [p];
      }
      freedArgs := freedArgs + [args];
    }

    /** s_on_publish; the flags say whether copying the topic, allocating the payload and copying the
        payload succeed. */
    method OnPublish(topicCopied: bool, payloadAllocated: bool, payloadCopied: bool)
      requires subscribed && builder.Resting?
      modifies this
      ensures Value() == AfterPublish(old(Value()), topicCopied, payloadAllocated, payloadCopied)
    {
      var args := nextMessage;
      nextMessage := nextMessage + 1;
      var payload: Option<Message> := None;
      refs := refs + 1;
      if !topicCopied || !payloadAllocated {
        DestroyOnPublishArgs(args, payload);
        return;
      }
      payload := Some(args);
      allocatedPayloads := allocatedPayloads + {args};
      if !payloadCopied {
        DestroyOnPublishArgs(args, payload);
        return;
      }
      refs := refs + 1;
      queue := queue + [args];
      history := history.(queued := history.queued + [args]);
    }

    /** s_on_publish_call. */
    method OnPublishCall(env: bool)
      requires caller.Waiting? && queue != []
      modifies this`refs, this`queue, this`external, this`history, this`freedArgs, this`freedPayloads
      ensures Value() == AfterCall(old(Value()), env)
    {
      var args := queue[0];
      queue := queue[1..];
      var payload := Some(args);
      if env {
        external := external + multiset{args};
        payload := None;
        history := WithDelivered(history, args);
        refs := refs - 1;
      } else {
        history := WithSkipped(history, args);
      }
      DestroyOnPublishArgs(args, payload);
      assert refs == old(refs) - if env then 2 else 1;
      assert external == if env then old(external) + multiset{args} else old(external);
      assert freedArgs == old(freedArgs) + [args];
      assert freedPayloads == if env then old(freedPayloads) else old(freedPayloads) + [args];
    }

    /** s_destroy_subscription. */
    method DestroySubscription()
      requires subscribed && builder.Resting?
      modifies this
      ensures Some(Value()) == Next(old(Value()), Unsubscribe)
    {
      refs := refs - 1;
      subscribed := false;
    }

    /** s_publish_external_arraybuffer_finalizer. */
    method FinalizeArrayBuffer(ghost payload: Message)
      requires payload in external
      modifies this
      ensures Some(Value()) == Next(old(Value()), Finalize(payload))
    {
      external := external - multiset{payload};
      freedPayloads := freedPayloads + [payload];
    }
  }
}
