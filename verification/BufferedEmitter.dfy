/** The emitter's linked queue, changed in place while listeners run, proved against EventEmitter. */
module BufferedEmitter {
  import opened EventEmitter

  class BufferedEvent {
    var next: BufferedEvent?
    const event: Event

    constructor (event: Event)
      ensures this.event == event && next == null
    {
      this.event := event;
      next := null;
    }
  }

  /** The events of a chain of nodes. */
  ghost function Events(chain: seq<BufferedEvent>): seq<Event> {
    seq(|chain|, i requires 0 <= i < |chain| => chain[i].event)
  }

  class BufferedEventEmitter {
    var corked: bool
    var eventQueue: BufferedEvent?
    var lastQueuedEvent: BufferedEvent?
    ghost var chain: seq<BufferedEvent>
    ghost var repr: set<BufferedEvent>
    ghost var delivered: seq<Delivery>
    ghost var kept: seq<Event>
    ghost var lost: seq<Event>

    /** The next links lead from eventQueue through `chain` to lastQueuedEvent. An empty chain says
        nothing about lastQueuedEvent. */
    ghost predicate Valid()
      reads this, repr
    {
      && (forall i :: 0 <= i < |chain| ==> chain[i] in repr)
      && (forall i, j :: 0 <= i < j < |chain| ==> chain[i] != chain[j])
      && (lastQueuedEvent != null ==> lastQueuedEvent in repr)
      && (if chain == [] then eventQueue == null
          else eventQueue == chain[0] && lastQueuedEvent == chain[|chain| - 1] && chain[|chain| - 1].next == null)
      && (forall i :: 0 <= i < |chain| - 1 ==> chain[i].next == chain[i + 1])
    }

    ghost function Value(): State
      reads this
    {
      State(corked, Events(chain), lastQueuedEvent != null, delivered, kept, lost)
    }

    constructor ()
      ensures Valid() && Value() == Init() && repr == {}
    {
      corked, eventQueue, lastQueuedEvent := false, null, null;
      chain, repr, delivered, kept, lost := [], {}, [], [], [];
    }

    method Cork()
      modifies this`corked
      ensures corked
    {
      corked := true;
    }

    /** The corked half of emit. */
    method BufferEvent(e: Event)
      requires Valid() && corked
      modifies this`lastQueuedEvent, this`eventQueue, this`chain, this`repr, this`kept, this`lost, repr`next
      ensures Valid() && (forall n :: n in repr && n !in old(repr) ==> fresh(n)) && old(repr) <= repr
      ensures old(chain) <= chain
      ensures Value() == Buffer(old(Value()), e)
    {
      var last := lastQueuedEvent;
      var node := new BufferedEvent(e);
      lastQueuedEvent := node;
      repr := repr + {node};
      if last != null {
        last.next := node;
      } else {
        eventQueue := node;
      }
      if chain == [] && last != null {
        lost := lost + [e];
      } else {
        chain, kept := chain + [node], kept + [e];
      }
    }

    /** emit. */
    method EmitEvent(e: Event)
      requires Valid()
      modifies this, repr`next
      ensures Valid() && (forall n :: n in repr && n !in old(repr) ==> fresh(n)) && old(repr) <= repr
      ensures old(chain) <= chain
      ensures Value() == DoEmit(old(Value()), e)
      decreases e, 1
    {
      if corked {
        BufferEvent(e);
      } else {
        DeliverEvent(e, false);
      }
    }

    /** super.emit: runs the listeners of the event. */
    method DeliverEvent(e: Event, ghost fromQueue: bool)
      requires Valid()
      modifies this, repr`next
      ensures Valid() && (forall n :: n in repr && n !in old(repr) ==> fresh(n)) && old(repr) <= repr
      ensures old(chain) <= chain
      ensures Value() == Deliver(old(Value()), e, fromQueue)
      decreases e, 0
    {
      delivered := delivered + [Delivery(e, fromQueue)];
      RunListeners(e.reaction);
    }

    method RunListeners(reaction: Reaction)
      requires Valid()
      modifies this, repr`next
      ensures Valid() && (forall n :: n in repr && n !in old(repr) ==> fresh(n)) && old(repr) <= repr
      ensures old(chain) <= chain
      ensures Value() == React(old(Value()), reaction)
      decreases reaction, 0
    {
      match reaction {
        case Nothing =>
        case CorkThen(rest) =>
          Cork();
          RunListeners(rest);
        case EmitThen(e, rest) =>
          EmitEvent(e);
          RunListeners(rest);
      }
    }

    /** One turn of the loop of uncork: the head stays in the queue while its listeners run. */
    method DrainFirst()
      requires Valid() && eventQueue != null
      modifies this, repr`next
      ensures Valid() && (forall n :: n in repr && n !in old(repr) ==> fresh(n)) && old(repr) <= repr
      ensures Value() == DrainHead(old(Value()))
    {
      var event := eventQueue;
      DeliverEvent(event.event, true);
      eventQueue := eventQueue.next;
      chain := chain[1..];
    }

    /** uncork. */
    method UncorkAll()
      requires Valid()
      modifies this, repr`next
      ensures Valid() && (forall n :: n in repr && n !in old(repr) ==> fresh(n)) && old(repr) <= repr
      ensures Value() == Uncork(old(Value()))
      ensures eventQueue == null
    {
      corked := false;
      while eventQueue != null
        invariant Valid() && (forall n :: n in repr && n !in old(repr) ==> fresh(n)) && old(repr) <= repr
        invariant Drain(Value()) == Uncork(old(Value()))
        decreases Weight(Events(chain))
      {
        DrainFirst();
      }
    }
  }
}
