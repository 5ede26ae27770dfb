/** The corked event emitter: events emitted while corked are buffered in a linked queue and handed
to the listeners when the emitter is uncorked.

What the listeners of an event do when it reaches them is part of the event: they may cork the
emitter and emit further events, which have listeners of their own. They do not uncork.
*/
module EventEmitter {
  import opened Runs

  datatype Event = Event(name: int, reaction: Reaction)

  /** What the listeners do, one call after the other. */
  datatype Reaction = Nothing | CorkThen(rest: Reaction) | EmitThen(event: Event, rest: Reaction)

  datatype Delivery = Delivery(event: Event, fromQueue: bool)

  /** `queue` is what can be reached from eventQueue; `queuedBefore` says that lastQueuedEvent is set.
      `delivered` is every call of the listeners, `kept` every event that entered the queue, `lost`
      every event that was buffered where the queue does not lead. */
  datatype State = State(
    corked: bool,
    queue: seq<Event>,
    queuedBefore: bool,
    delivered: seq<Delivery>,
    kept: seq<Event>,
    lost: seq<Event>)

  function Init(): State { State(false, [], false, [], [], []) }

  /** lastQueuedEvent still names an event that has already been drained. */
  predicate Stale(s: State) { s.queuedBefore && s.queue == [] }

  /** emit while corked: append after lastQueuedEvent if there is one, else start the queue. */
  function Buffer(s: State, e: Event): State {
    if Stale(s) then s.(lost := s.lost + [e])
    else s.(queue := s.queue + [e], queuedBefore := true, kept := s.kept + [e])
  }

  function DoEmit(s: State, e: Event): State
    decreases e, 1
  {
    if s.corked then Buffer(s, e) else Deliver(s, e, false)
  }

  /** super.emit: the listeners run to completion. */
  function Deliver(s: State, e: Event, fromQueue: bool): State
    decreases e, 0
  {
    React(s.(delivered := s.delivered + [Delivery(e, fromQueue)]), e.reaction)
  }

  function React(s: State, reaction: Reaction): State
    decreases reaction, 0
  {
    match reaction
    case Nothing => s
    case CorkThen(rest) => React(s.(corked := true), rest)
    case EmitThen(e, rest) => React(DoEmit(s, e), rest)
  }

  // ---------------------------------------------------------------- what listeners cannot undo

  /** Deliveries made by draining the queue, in order. */
  function FromQueue(d: seq<Delivery>): seq<Event> {
    if d == [] then []
    else if d[0].fromQueue then [d[0].event] + FromQueue(d[1..])
    else FromQueue(d[1..])
  }

  lemma {:induction false} FromQueueConcat(a: seq<Delivery>, b: seq<Delivery>)
    ensures FromQueue(a + b) == FromQueue(a) + FromQueue(b)
  {
    if a == [] {
      assert a + b == b;
    } else {
      assert (a + b)[1..] == a[1..] + b;
      FromQueueConcat(a[1..], b);
    }
  }

  lemma FromQueueOne(d: seq<Delivery>, e: Event, fromQueue: bool)
    ensures FromQueue(d + [Delivery(e, fromQueue)]) == FromQueue(d) + if fromQueue then [e] else []
  {
    FromQueueConcat(d, [Delivery(e, fromQueue)]);
    assert [Delivery(e, fromQueue)][1..] == [];
  }

  /** The effect of any listener activity between two states: the queue grows at its end by exactly
      what is kept, nothing is drained, and while the queue is not stale nothing is lost. */
  ghost predicate Extends(s: State, t: State) {
    && s.queue <= t.queue
    && t.kept == s.kept + t.queue[|s.queue|..]
    && FromQueue(t.delivered) == FromQueue(s.delivered)
    && (s.queuedBefore ==> t.queuedBefore)
    && (t.queue != s.queue ==> t.queuedBefore)
    && (!Stale(s) ==> !Stale(t) && t.lost == s.lost)
    && (Stale(s) ==> t.queue == [] && t.queuedBefore && s.lost <= t.lost)
  }

  lemma ExtendsTransitive(s: State, t: State, u: State)
    requires Extends(s, t) && Extends(t, u)
    ensures Extends(s, u)
  {
  }

  lemma CorkExtends(s: State, corked: bool)
    ensures Extends(s, s.(corked := corked))
  {
  }

  lemma BufferExtends(s: State, e: Event)
    ensures Extends(s, Buffer(s, e))
  {
  }

  lemma {:induction false} EmitExtends(s: State, e: Event)
    ensures Extends(s, DoEmit(s, e))
    decreases e, 1
  {
    if s.corked {
      BufferExtends(s, e);
    } else {
      DeliverExtends(s, e, false);
      FromQueueOne(s.delivered, e, false);
    }
  }

  lemma {:induction false} DeliverExtends(s: State, e: Event, fromQueue: bool)
    ensures Extends(s.(delivered := s.delivered + [Delivery(e, fromQueue)]), Deliver(s, e, fromQueue))
    decreases e, 0
  {
    ReactExtends(s.(delivered := s.delivered + [Delivery(e, fromQueue)]), e.reaction);
  }

  lemma {:induction false} ReactExtends(s: State, reaction: Reaction)
    ensures Extends(s, React(s, reaction))
    decreases reaction, 0
  {
    match reaction
    case Nothing => CorkExtends(s, s.corked);
    case CorkThen(rest) =>
      var t := s.(corked := true);
      CorkExtends(s, true);
      ReactExtends(t, rest);
      ExtendsTransitive(s, t, React(t, rest));
    case EmitThen(e, rest) =>
      var t := DoEmit(s, e);
      EmitExtends(s, e);
      ReactExtends(t, rest);
      ExtendsTransitive(s, t, React(t, rest));
  }

  // ---------------------------------------------------------------- uncork

  function Size(e: Event): nat
    decreases e, 0
  {
    1 + ReactionSize(e.reaction)
  }

  function ReactionSize(r: Reaction): nat
    decreases r, 0
  {
    match r
    case Nothing => 0
    case CorkThen(rest) => ReactionSize(rest)
    case EmitThen(e, rest) => Size(e) + ReactionSize(rest)
  }

  function Weight(queue: seq<Event>): nat { if queue == [] then 0 else Size(queue[0]) + Weight(queue[1..]) }

  lemma {:induction false} WeightConcat(a: seq<Event>, b: seq<Event>)
    ensures Weight(a + b) == Weight(a) + Weight(b)
  {
    if a == [] {
      assert a + b == b;
    } else {
      assert (a + b)[1..] == a[1..] + b;
      WeightConcat(a[1..], b);
    }
  }

  /** Listeners can buffer no more than what hangs below the event they are called for. */
  lemma {:induction false} ReactWeight(s: State, reaction: Reaction)
    ensures Weight(React(s, reaction).queue) <= Weight(s.queue) + ReactionSize(reaction)
    decreases reaction, 0
  {
    match reaction
    case Nothing =>
    case CorkThen(rest) => ReactWeight(s.(corked := true), rest);
    case EmitThen(e, rest) =>
      if s.corked {
        WeightConcat(s.queue, [e]);
        assert Weight([e]) == Size(e) by { assert [e][1..] == []; }
      } else {
        var t := s.(delivered := s.delivered + [Delivery(e, false)]);
        ReactWeight(t, e.reaction);
        assert DoEmit(s, e) == Deliver(s, e, false) == React(t, e.reaction);
      }
      assert Weight(DoEmit(s, e).queue) <= Weight(s.queue) + Size(e);
      ReactWeight(DoEmit(s, e), rest);
  }

  /** One turn of the drain loop: the head is handed over while still in the queue, then dropped. */
  function DrainHead(s: State): (t: State)
    requires s.queue != []
    ensures Weight(t.queue) < Weight(s.queue)
  {
    var u := Deliver(s, s.queue[0], true);
    assert s.queue <= u.queue by { DeliverExtends(s, s.queue[0], true); }
    assert Weight(u.queue) < Weight(s.queue) + Size(s.queue[0]) by {
      ReactWeight(s.(delivered := s.delivered + [Delivery(s.queue[0], true)]), s.queue[0].reaction);
    }
    u.(queue := u.queue[1..])
  }

  function Drain(s: State): State
    decreases Weight(s.queue)
  {
    if s.queue == [] then s else Drain(DrainHead(s))
  }

  function Uncork(s: State): State { Drain(s.(corked := false)) }

  // ---------------------------------------------------------------- every event once, in order

  /** Buffered events are delivered from the queue in the order they entered it. */
  ghost predicate Inv(s: State) {
    && FromQueue(s.delivered) + s.queue == s.kept
    && (s.queue != [] ==> s.queuedBefore)
  }

  lemma DrainHeadKeepsInv(s: State)
    requires Inv(s) && s.queue != []
    ensures Inv(DrainHead(s)) && DrainHead(s).lost == s.lost && DrainHead(s).queuedBefore
  {
    var u := Deliver(s, s.queue[0], true);
    DeliverExtends(s, s.queue[0], true);
    FromQueueOne(s.delivered, s.queue[0], true);
    HeadMovesOver(FromQueue(s.delivered), s.queue, u.queue);
  }

  lemma HeadMovesOver(drained: seq<Event>, queue: seq<Event>, longer: seq<Event>)
    requires queue != [] && queue <= longer
    ensures (drained + [queue[0]]) + longer[1..] == (drained + queue) + longer[|queue|..]
  {
    assert longer == queue + longer[|queue|..];
    assert longer == [queue[0]] + longer[1..];
  }

  lemma {:induction false} DrainKeepsInv(s: State)
    requires Inv(s)
    ensures Inv(Drain(s)) && Drain(s).queue == [] && Drain(s).lost == s.lost
    ensures s.queuedBefore ==> Drain(s).queuedBefore
    decreases Weight(s.queue)
  {
    if s.queue != [] {
      DrainHeadKeepsInv(s);
      DrainKeepsInv(DrainHead(s));
    }
  }

  lemma QueueGrows(drained: seq<Event>, queue: seq<Event>, longer: seq<Event>)
    requires queue <= longer
    ensures drained + longer == (drained + queue) + longer[|queue|..]
  {
    assert longer == queue + longer[|queue|..];
  }

  datatype Call = CorkCall | EmitCall(event: Event) | UncorkCall

  function Apply(s: State, c: Call): State {
    match c
    case CorkCall => s.(corked := true)
    case EmitCall(e) => DoEmit(s, e)
    case UncorkCall => Uncork(s)
  }

  function Next(s: State, c: Call): Option<State> { Some(Apply(s, c)) }

  lemma StepKeepsInv(s: State, c: Call)
    requires Inv(s)
    ensures Inv(Apply(s, c))
  {
    match c
    case CorkCall =>
    case EmitCall(e) =>
      EmitExtends(s, e);
      QueueGrows(FromQueue(s.delivered), s.queue, DoEmit(s, e).queue);
    case UncorkCall =>
      DrainKeepsInv(s.(corked := false));
  }

  /** In every run, what was drained followed by what is queued is what entered the queue: each
      kept event is delivered from the queue once and in order. */
  lemma KeptEventsAreDeliveredInOrder(calls: seq<Call>)
    ensures var r := Run(Next, Init(), calls);
            r.Some? && FromQueue(r.value.delivered) + r.value.queue == r.value.kept
  {
    forall a, c | Inv(a) && Next(a, c).Some? ensures Inv(Next(a, c).value) {
      StepKeepsInv(a, c);
    }
    InvariantOfRuns(Next, Inv, Init(), calls);
    RunsAreTotal(Init(), calls);
  }

  lemma {:induction false} RunsAreTotal(s: State, calls: seq<Call>)
    ensures Run(Next, s, calls).Some?
    decreases |calls|
  {
    if calls != [] {
      RunsAreTotal(Apply(s, calls[0]), calls[1..]);
    }
  }

  /** From a fresh emitter through its first complete drain nothing is lost, including what the
      listeners buffer while the drain is under way. */
  lemma {:induction false} FirstDrainDeliversEverything(s: State, calls: seq<Call>)
    requires Inv(s) && !Stale(s) && s.lost == []
    requires forall i :: 0 <= i < |calls| ==> !calls[i].UncorkCall?
    ensures var r := Run(Next, s, calls + [UncorkCall]);
            r.Some? && r.value.lost == [] && r.value.queue == [] && FromQueue(r.value.delivered) == r.value.kept
    decreases |calls|
  {
    if calls == [] {
      assert calls + [UncorkCall] == [UncorkCall];
      assert [UncorkCall][1..] == [];
      DrainKeepsInv(s.(corked := false));
    } else {
      var t := Apply(s, calls[0]);
      StepKeepsInv(s, calls[0]);
      if calls[0].EmitCall? {
        EmitExtends(s, calls[0].event);
      }
      assert (calls + [UncorkCall])[1..] == calls[1..] + [UncorkCall];
      FirstDrainDeliversEverything(t, calls[1..]);
    }
  }

  // ---------------------------------------------------------------- later cork cycles

  /** After a non-empty queue has been drained every event buffered later is lost: no call ever
      delivers anything from the queue again. */
  lemma {:induction false} LaterBufferedEventsAreLost(s: State, calls: seq<Call>)
    requires Stale(s)
    ensures var r := Run(Next, s, calls);
            && r.Some? && Stale(r.value)
            && FromQueue(r.value.delivered) == FromQueue(s.delivered)
            && r.value.kept == s.kept
            && s.lost <= r.value.lost
    decreases |calls|
  {
    if calls != [] {
      var t := Apply(s, calls[0]);
      if calls[0].EmitCall? {
        EmitExtends(s, calls[0].event);
      }
      LaterBufferedEventsAreLost(t, calls[1..]);
    }
  }

  /** After an uncork the queue is stale exactly when something had ever been queued, and then an
      event buffered under the next cork is lost; otherwise it is kept. */
  lemma NextCorkLosesEventsIff(s: State, e: Event)
    requires Inv(s)
    ensures var t := Uncork(s);
            && (Stale(t) <==> s.queuedBefore)
            && (DoEmit(t.(corked := true), e).lost == t.lost + [e] <==> s.queuedBefore)
            && (DoEmit(t.(corked := true), e).kept == t.kept + [e] <==> !s.queuedBefore)
  {
    DrainKeepsInv(s.(corked := false));
  }

  // ---------------------------------------------------------------- every emit is delivered, queued or lost

  /** An emit on an uncorked emitter calls the listeners at once; on a corked one it calls nobody and
      the event is queued or lost. */
  lemma EmitMeaning(s: State, e: Event)
    ensures !s.corked ==> s.delivered + [Delivery(e, false)] <= DoEmit(s, e).delivered
    ensures s.corked ==>
              var t := DoEmit(s, e);
              && t.corked && t.delivered == s.delivered
              && if Stale(s) then t.lost == s.lost + [e] && t.kept == s.kept && t.queue == s.queue
                 else t.lost == s.lost && t.kept == s.kept + [e] && t.queue == s.queue + [e]
  {
    if !s.corked {
      ReactOnlyDelivers(s.(delivered := s.delivered + [Delivery(e, false)]), e.reaction);
    }
  }

  /** After a cork an emit calls nobody, and its event is queued or lost. */
  lemma CorkedEmitWaits(s: State, e: Event)
    ensures var r := Run(Next, s, [CorkCall, EmitCall(e)]);
            && r.Some? && r.value.corked && r.value.delivered == s.delivered
            && multiset(r.value.kept) + multiset(r.value.lost) == multiset(s.kept) + multiset(s.lost) + multiset{e}
  {
    RunOfTwo(Next, s, CorkCall, EmitCall(e));
    EmitMeaning(s.(corked := true), e);
  }

  lemma {:induction false} ReactOnlyDelivers(s: State, reaction: Reaction)
    ensures s.delivered <= React(s, reaction).delivered
    decreases reaction, 0
  {
    match reaction
    case Nothing =>
    case CorkThen(rest) => ReactOnlyDelivers(s.(corked := true), rest);
    case EmitThen(e, rest) =>
      if !s.corked {
        var t := s.(delivered := s.delivered + [Delivery(e, false)]);
        ReactOnlyDelivers(t, e.reaction);
        assert DoEmit(s, e) == Deliver(s, e, false) == React(t, e.reaction);
      }
      ReactOnlyDelivers(DoEmit(s, e), rest);
  }

  /** The events that listeners emit themselves, not counting what those set off. */
  function Emits(reaction: Reaction): multiset<Event> {
    match reaction
    case Nothing => multiset{}
    case CorkThen(rest) => Emits(rest)
    case EmitThen(e, rest) => multiset{e} + Emits(rest)
  }

  function EmitsOf(d: seq<Delivery>): multiset<Event> {
    if d == [] then multiset{} else EmitsOf(d[..|d| - 1]) + Emits(d[|d| - 1].event.reaction)
  }

  /** Deliveries made by an emit itself, not from the queue. */
  function Direct(d: seq<Delivery>): multiset<Event> {
    if d == [] then multiset{}
    else Direct(d[..|d| - 1]) + if d[|d| - 1].fromQueue then multiset{} else multiset{d[|d| - 1].event}
  }

  /** Where emitted events end up. */
  function Arrived(s: State): multiset<Event> { Direct(s.delivered) + multiset(s.kept) + multiset(s.lost) }

  lemma OneDelivery(d: seq<Delivery>, x: Delivery)
    ensures EmitsOf(d + [x]) == EmitsOf(d) + Emits(x.event.reaction)
    ensures Direct(d + [x]) == Direct(d) + if x.fromQueue then multiset{} else multiset{x.event}
  {
    assert (d + [x])[..|d|] == d;
  }

  /** From s to t, event x arrived as often as it was emitted: `more` times, and by the listeners
      called meanwhile. */
  ghost predicate Balanced(s: State, t: State, x: Event, more: nat) {
    Arrived(t)[x] + EmitsOf(s.delivered)[x] == Arrived(s)[x] + EmitsOf(t.delivered)[x] + more
  }

  lemma BufferIsBalanced(s: State, e: Event, x: Event)
    ensures Balanced(s, Buffer(s, e), x, multiset{e}[x])
  {
  }

  lemma {:induction false} EmitIsBalanced(s: State, e: Event, x: Event)
    ensures Balanced(s, DoEmit(s, e), x, multiset{e}[x])
    decreases e, 1
  {
    if s.corked {
      BufferIsBalanced(s, e, x);
    } else {
      DeliverIsBalanced(s, e, false, x);
    }
  }

  lemma {:induction false} DeliverIsBalanced(s: State, e: Event, fromQueue: bool, x: Event)
    ensures Balanced(s, Deliver(s, e, fromQueue), x, if fromQueue then 0 else multiset{e}[x])
    decreases e, 0
  {
    var t := s.(delivered := s.delivered + [Delivery(e, fromQueue)]);
    OneDelivery(s.delivered, Delivery(e, fromQueue));
    assert Arrived(t)[x] == Arrived(s)[x] + if fromQueue then 0 else multiset{e}[x];
    ReactIsBalanced(t, e.reaction, x);
  }

  lemma {:induction false} ReactIsBalanced(s: State, reaction: Reaction, x: Event)
    ensures Balanced(s, React(s, reaction), x, Emits(reaction)[x])
    decreases reaction, 0
  {
    match reaction
    case Nothing =>
    case CorkThen(rest) => ReactIsBalanced(s.(corked := true), rest, x);
    case EmitThen(e, rest) =>
      EmitIsBalanced(s, e, x);
      ReactIsBalanced(DoEmit(s, e), rest, x);
  }

  lemma {:induction false} DrainIsBalanced(s: State, x: Event)
    ensures Balanced(s, Drain(s), x, 0)
    decreases Weight(s.queue)
  {
    if s.queue != [] {
      DeliverIsBalanced(s, s.queue[0], true, x);
      DrainIsBalanced(DrainHead(s), x);
    }
  }

  function CallerEmits(calls: seq<Call>): multiset<Event> {
    if calls == [] then multiset{}
    else (if calls[0].EmitCall? then multiset{calls[0].event} else multiset{}) + CallerEmits(calls[1..])
  }

  lemma CallIsBalanced(s: State, c: Call, x: Event)
    ensures Balanced(s, Apply(s, c), x, if c.EmitCall? then multiset{c.event}[x] else 0)
  {
    match c
    case CorkCall =>
    case EmitCall(e) => EmitIsBalanced(s, e, x);
    case UncorkCall => DrainIsBalanced(s.(corked := false), x);
  }

  lemma {:induction false} RunsAreBalanced(s: State, calls: seq<Call>, x: Event)
    ensures var r := Run(Next, s, calls); r.Some? && Balanced(s, r.value, x, CallerEmits(calls)[x])
    decreases |calls|
  {
    if calls != [] {
      CallIsBalanced(s, calls[0], x);
      RunsAreBalanced(Apply(s, calls[0]), calls[1..], x);
    }
  }

  /** In every run each event emitted, by the caller or by a listener that was called, is delivered at
      once, queued or lost: exactly one of the three, once. */
  lemma EveryEmitArrivesOnce(calls: seq<Call>)
    ensures var r := Run(Next, Init(), calls);
            && r.Some?
            && Direct(r.value.delivered) + multiset(r.value.kept) + multiset(r.value.lost) ==
               CallerEmits(calls) + EmitsOf(r.value.delivered)
  {
    RunsAreTotal(Init(), calls);
    var t := Run(Next, Init(), calls).value;
    forall x: Event ensures Arrived(t)[x] == (CallerEmits(calls) + EmitsOf(t.delivered))[x] {
      RunsAreBalanced(Init(), calls, x);
    }
    assert Arrived(t) == CallerEmits(calls) + EmitsOf(t.delivered);
  }

  // ---------------------------------------------------------------- when an uncork leaves the emitter corked

  /** The listeners, or those of an event they emit, cork. */
  predicate HasCork(reaction: Reaction) {
    match reaction
    case Nothing => false
    case CorkThen(_) => true
    case EmitThen(e, rest) => HasCork(e.reaction) || HasCork(rest)
  }

  lemma {:induction false} ReactCorksIff(s: State, reaction: Reaction)
    ensures React(s, reaction).corked <==> s.corked || HasCork(reaction)
    ensures !React(s, reaction).corked ==> React(s, reaction).queue == s.queue
    decreases reaction, 0
  {
    match reaction
    case Nothing =>
    case CorkThen(rest) => ReactCorksIff(s.(corked := true), rest);
    case EmitThen(e, rest) =>
      if !s.corked {
        ReactCorksIff(s.(delivered := s.delivered + [Delivery(e, false)]), e.reaction);
        assert DoEmit(s, e) == Deliver(s, e, false);
      }
      ReactCorksIff(DoEmit(s, e), rest);
  }

  /** An uncork leaves the emitter corked exactly when a listener of a queued event corks. */
  lemma {:induction false} UncorkLeavesCorkedIff(s: State)
    ensures Drain(s).corked <==> s.corked || exists i :: 0 <= i < |s.queue| && HasCork(s.queue[i].reaction)
    ensures Uncork(s).corked <==> exists i :: 0 <= i < |s.queue| && HasCork(s.queue[i].reaction)
    decreases Weight(s.queue), s.corked
  {
    if s.corked {
      UncorkLeavesCorkedIff(s.(corked := false));
    }
    if s.queue != [] {
      var t := DrainHead(s);
      ReactCorksIff(s.(delivered := s.delivered + [Delivery(s.queue[0], true)]), s.queue[0].reaction);
      UncorkLeavesCorkedIff(t);
      if !t.corked {
        assert t.queue == s.queue[1..];
        assert forall i :: 0 < i < |s.queue| ==> s.queue[i] == t.queue[i - 1];
        assert forall i :: 0 <= i < |t.queue| ==> t.queue[i] == s.queue[i + 1];
      }
    }
  }
}
