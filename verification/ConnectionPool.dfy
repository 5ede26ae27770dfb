/** The browser connection manager: an event-driven pool with a capacity bound.

Connections and requests are numbered in the order they are made. `Log` is history the source does
not keep: how the requests taken off the queue ended, which connections are held by callers, and which
events each connection has fired.
*/
module ConnectionPool {
  import opened Runs

  type Connection = nat
  type Request = nat

  /** A request leaves the queue with a connection or with an error. */
  datatype Settled = Served(request: Request, connection: Connection) | Rejected(request: Request)

  datatype Log = Log(
    settled: seq<Settled>,
    leases: multiset<Connection>,
    connected: set<Connection>,
    closed: set<Connection>,
    removed: set<Connection>)

  datatype Pool = Pool(
    max: int,
    pending: set<Connection>,
    live: set<Connection>,
    free: seq<Connection>,
    requests: seq<Request>,
    nextConnection: Connection,
    nextRequest: Request,
    log: Log)

  function Init(max: int): Pool { Pool(max, {}, {}, [], [], 0, 0, Log([], multiset{}, {}, {}, {})) }

  // ---------------------------------------------------------------- the manager's own operations

  function IndexOf(s: seq<Connection>, c: Connection): (i: int)
    ensures -1 <= i < |s|
    ensures i >= 0 ==> s[i] == c && c !in s[..i]
    ensures i == -1 <==> c !in s
  {
    if s == [] then -1
    else if s[0] == c then 0
    else
      var i := IndexOf(s[1..], c);
      assert i >= 0 ==> s[..i + 1] == [s[0]] + s[1..][..i];
      if i == -1 then -1 else i + 1
  }

  /** indexOf and splice: the first occurrence goes. */
  function Spliced(s: seq<Connection>, c: Connection): seq<Connection> {
    var i := IndexOf(s, c);
    if i == -1 then s else s[..i] + s[i + 1..]
  }

  function Remove(s: Pool, c: Connection): Pool {
    s.(pending := s.pending - {c}, live := s.live - {c}, free := Spliced(s.free, c),
       log := s.log.(removed := s.log.removed + {c}))
  }

  function Resolve(s: Pool, c: Connection): Pool {
    if s.requests != [] then
      s.(requests := s.requests[1..],
         log := s.log.(settled := s.log.settled + [Served(s.requests[0], c)], leases := s.log.leases + multiset{c}))
    else
      s.(free := s.free + [c])
  }

  function Reject(s: Pool): Pool {
    if s.requests != [] then
      s.(requests := s.requests[1..], log := s.log.(settled := s.log.settled + [Rejected(s.requests[0])]))
    else
      s
  }

  function Pump(s: Pool): Pool {
    if s.requests == [] then s
    else if s.free != [] then Resolve(s.(free := s.free[..|s.free| - 1]), s.free[|s.free| - 1])
    else if |s.live| + |s.pending| == s.max then s
    else s.(pending := s.pending + {s.nextConnection}, nextConnection := s.nextConnection + 1)
  }

  function Acquire(s: Pool): Pool {
    Pump(s.(requests := s.requests + [s.nextRequest], nextRequest := s.nextRequest + 1))
  }

  /** The caller gives one lease back. */
  function Release(s: Pool, c: Connection): Pool {
    Pump(s.(free := s.free + [c], log := s.log.(leases := s.log.leases - multiset{c})))
  }

  function OnConnect(s: Pool, c: Connection): Pool {
    Resolve(s.(pending := s.pending - {c}, live := s.live + {c}, free := s.free + [c],
               log := s.log.(connected := s.log.connected + {c})), c)
  }

  function OnError(s: Pool, c: Connection): Pool {
    if c in s.pending then Reject(s) else Pump(Remove(s, c))
  }

  function OnClose(s: Pool, c: Connection): Pool {
    Pump(Remove(s.(log := s.log.(closed := s.log.closed + {c})), c))
  }

  // ---------------------------------------------------------------- runs

  datatype Event =
    | AcquireEvent
    | ReleaseEvent(c: Connection)
    | ConnectEvent(c: Connection)
    | ErrorEvent(c: Connection)
    | CloseEvent(c: Connection)
    | ShutdownEvent

  /** A lease is given back by its holder, and a connection connects at most once and before it
      closes; errors and closes may come at any time and repeatedly. Shutting down rejects the
      waiting callers but leaves the queue as it is. */
  function Next(s: Pool, e: Event): Option<Pool> {
    match e
    case AcquireEvent => Some(Acquire(s))
    case ReleaseEvent(c) => if c in s.log.leases then Some(Release(s, c)) else None
    case ConnectEvent(c) =>
      if c < s.nextConnection && c !in s.log.connected && c !in s.log.closed then Some(OnConnect(s, c)) else None
    case ErrorEvent(c) => if c < s.nextConnection then Some(OnError(s, c)) else None
    case CloseEvent(c) => if c < s.nextConnection then Some(OnClose(s, c)) else None
    case ShutdownEvent => Some(s)
  }

  // ---------------------------------------------------------------- capacity

  /** Pending are exactly the connections that have fired neither connect nor close. */
  ghost predicate BoundInv(s: Pool) {
    && s.live !! s.pending
    && (s.max >= 0 ==> |s.live| + |s.pending| <= s.max)
    && (forall c: Connection :: c in s.pending <==> c < s.nextConnection && c !in s.log.connected && c !in s.log.closed)
    && (forall c: Connection :: c in s.live ==> c in s.log.connected)
    && (forall c: Connection :: c in s.log.connected || c in s.log.closed ==> c < s.nextConnection)
  }

  lemma PumpKeepsBound(s: Pool)
    requires BoundInv(s)
    ensures BoundInv(Pump(s)) && Pump(s).max == s.max
  {
  }

  lemma RemoveKeepsBound(s: Pool, c: Connection)
    requires BoundInv(s) && c !in s.pending
    ensures BoundInv(Remove(s, c))
  {
  }

  lemma CloseKeepsBound(s: Pool, c: Connection)
    requires BoundInv(s) && c < s.nextConnection
    ensures BoundInv(OnClose(s, c)) && OnClose(s, c).max == s.max
  {
    var t := s.(log := s.log.(closed := s.log.closed + {c}));
    assert BoundInv(Remove(t, c));
    PumpKeepsBound(Remove(t, c));
  }

  lemma ErrorKeepsBound(s: Pool, c: Connection)
    requires BoundInv(s) && c < s.nextConnection
    ensures BoundInv(OnError(s, c)) && OnError(s, c).max == s.max
  {
    if c !in s.pending {
      RemoveKeepsBound(s, c);
      PumpKeepsBound(Remove(s, c));
    }
  }

  lemma ConnectKeepsBound(s: Pool, c: Connection)
    requires BoundInv(s) && c in s.pending
    ensures BoundInv(OnConnect(s, c)) && OnConnect(s, c).max == s.max
  {
    assert |s.pending - {c}| == |s.pending| - 1;
    assert |s.live + {c}| == |s.live| + 1;
  }

  lemma StepKeepsBound(s: Pool, e: Event)
    requires BoundInv(s) && Next(s, e).Some?
    ensures BoundInv(Next(s, e).value) && Next(s, e).value.max == s.max
  {
    match e
    case AcquireEvent =>
      PumpKeepsBound(s.(requests := s.requests + [s.nextRequest], nextRequest := s.nextRequest + 1));
    case ReleaseEvent(c) =>
      PumpKeepsBound(s.(free := s.free + [c], log := s.log.(leases := s.log.leases - multiset{c})));
    case ErrorEvent(c) => ErrorKeepsBound(s, c);
    case CloseEvent(c) => CloseKeepsBound(s, c);
    case ConnectEvent(c) => ConnectKeepsBound(s, c);
    case ShutdownEvent =>
  }

  /** Live and pending connections together never exceed the limit, although the guard tests only
      equality. Connections that were removed while held are not among them. */
  lemma CapacityIsRespected(max: int, events: seq<Event>)
    requires max >= 0
    ensures var r := Run(Next, Init(max), events);
            r.Some? ==> r.value.live !! r.value.pending && |r.value.live| + |r.value.pending| <= max
  {
    RunsKeepBound(max, events);
  }

  lemma RunsKeepBound(max: int, events: seq<Event>)
    ensures var r := Run(Next, Init(max), events); r.Some? ==> BoundInv(r.value) && r.value.max == max
  {
    var inv := (s: Pool) => BoundInv(s) && s.max == max;
    forall a, e | inv(a) && Next(a, e).Some? ensures inv(Next(a, e).value) {
      StepKeepsBound(a, e);
    }
    assert BoundInv(Init(max));
    InvariantOfRuns(Next, inv, Init(max), events);
  }

  /** A negative limit is no limit at all: every request then opens a connection of its own. */
  lemma {:induction false} NegativeLimitIsNoLimit(s: Pool, n: nat)
    requires s.max < 0 && s.free == [] && BoundInv(s)
    ensures var r := Run(Next, s, seq(n, i => AcquireEvent));
            r.Some? && |r.value.pending| == |s.pending| + n
    decreases n
  {
    if n > 0 {
      var t := Next(s, AcquireEvent).value;
      StepKeepsBound(s, AcquireEvent);
      assert s.nextConnection !in s.pending;
      assert seq(n, i => AcquireEvent)[1..] == seq(n - 1, i => AcquireEvent);
      NegativeLimitIsNoLimit(t, n - 1);
    }
  }

  /** A connect event keeps the bound exactly when its connection is already counted or there is
      room for one more. The connections of this library connect before anyone can close them; for
      one that connects after its close the bound holds only on this condition. */
  lemma ConnectKeepsTheBoundIff(s: Pool, c: Connection)
    requires s.live !! s.pending && |s.live| + |s.pending| <= s.max
    ensures var t := OnConnect(s, c);
            |t.live| + |t.pending| <= s.max <==> c in s.pending || c in s.live || |s.live| + |s.pending| < s.max
  {
    var t := OnConnect(s, c);
    assert |t.pending| == if c in s.pending then |s.pending| - 1 else |s.pending| by {
      if c !in s.pending {
        assert s.pending - {c} == s.pending;
      }
    }
    assert |t.live| == if c in s.live then |s.live| else |s.live| + 1 by {
      if c in s.live {
        assert s.live + {c} == s.live;
      }
    }
  }

  // ---------------------------------------------------------------- leases

  /** Places in the free list plus outstanding leases. */
  function Holders(s: Pool, c: Connection): nat { multiset(s.free)[c] + s.log.leases[c] }

  /** Connecting contributes two places at once; from then on they only change hands, until an error
      or a close takes at most one of them away. */
  ghost predicate LeaseInv(s: Pool, c: Connection) {
    && (c !in s.log.connected ==> Holders(s, c) == 0)
    && (c in s.log.connected && c !in s.log.removed ==> Holders(s, c) == 2)
    && Holders(s, c) <= 2
  }

  lemma SplicedCount(f: seq<Connection>, c: Connection)
    ensures multiset(Spliced(f, c)) == multiset(f) - multiset{c}
  {
    var i := IndexOf(f, c);
    if i == -1 {
      assert multiset(f)[c] == 0;
    } else {
      assert f == f[..i] + [f[i]] + f[i + 1..];
    }
  }

  lemma ResolveAddsOneHolder(s: Pool, d: Connection, c: Connection)
    ensures Holders(Resolve(s, d), c) == Holders(s, c) + if c == d then 1 else 0
  {
  }

  lemma PumpKeepsHolders(s: Pool, c: Connection)
    ensures Holders(Pump(s), c) == Holders(s, c)
    ensures Pump(s).log.connected == s.log.connected && Pump(s).log.removed == s.log.removed
  {
    if s.requests != [] && s.free != [] {
      var last := |s.free| - 1;
      assert s.free == s.free[..last] + [s.free[last]];
      ResolveAddsOneHolder(s.(free := s.free[..last]), s.free[last], c);
    }
  }

  lemma ConnectKeepsLeases(s: Pool, d: Connection, c: Connection)
    requires LeaseInv(s, c) && d !in s.log.connected
    ensures LeaseInv(OnConnect(s, d), c)
  {
    var t := s.(pending := s.pending - {d}, live := s.live + {d}, free := s.free + [d],
                log := s.log.(connected := s.log.connected + {d}));
    assert Holders(t, c) == Holders(s, c) + if c == d then 1 else 0;
    ResolveAddsOneHolder(t, d, c);
  }

  lemma RemoveKeepsLeases(s: Pool, d: Connection, c: Connection)
    requires LeaseInv(s, c)
    ensures LeaseInv(Remove(s, d), c)
  {
    SplicedCount(s.free, d);
  }

  lemma AcquireKeepsLeases(s: Pool, c: Connection)
    requires LeaseInv(s, c)
    ensures LeaseInv(Acquire(s), c)
  {
    PumpKeepsHolders(s.(requests := s.requests + [s.nextRequest], nextRequest := s.nextRequest + 1), c);
  }

  lemma ReleaseKeepsLeases(s: Pool, d: Connection, c: Connection)
    requires LeaseInv(s, c) && d in s.log.leases
    ensures LeaseInv(Release(s, d), c)
  {
    var t := s.(free := s.free + [d], log := s.log.(leases := s.log.leases - multiset{d}));
    assert Holders(t, c) == Holders(s, c);
    PumpKeepsHolders(t, c);
  }

  lemma RemovalKeepsLeases(s: Pool, d: Connection, c: Connection)
    requires LeaseInv(s, c)
    ensures LeaseInv(Pump(Remove(s, d)), c)
  {
    RemoveKeepsLeases(s, d, c);
    PumpKeepsHolders(Remove(s, d), c);
  }

  lemma RejectKeepsLeases(s: Pool, c: Connection)
    requires LeaseInv(s, c)
    ensures LeaseInv(Reject(s), c)
  {
  }

  lemma StepKeepsLeases(s: Pool, e: Event, c: Connection)
    requires LeaseInv(s, c) && Next(s, e).Some?
    ensures LeaseInv(Next(s, e).value, c)
  {
    match e
    case AcquireEvent => AcquireKeepsLeases(s, c);
    case ReleaseEvent(d) => ReleaseKeepsLeases(s, d, c);
    case ConnectEvent(d) => ConnectKeepsLeases(s, d, c);
    case ErrorEvent(d) =>
      if d in s.pending {
        RejectKeepsLeases(s, c);
      } else {
        RemovalKeepsLeases(s, d, c);
      }
    case CloseEvent(d) =>
      RemovalKeepsLeases(s.(log := s.log.(closed := s.log.closed + {d})), d, c);
    case ShutdownEvent =>
  }

  lemma RunsKeepLeases(max: int, events: seq<Event>, c: Connection)
    ensures var r := Run(Next, Init(max), events); r.Some? ==> LeaseInv(r.value, c)
  {
    var inv := (s: Pool) => LeaseInv(s, c);
    forall a, e | inv(a) && Next(a, e).Some? ensures inv(Next(a, e).value) {
      StepKeepsLeases(a, e, c);
    }
    InvariantOfRuns(Next, inv, Init(max), events);
  }

  /** Over every run a connected connection has exactly two places until it is removed and never
      more than two; it has two callers at once exactly while it is off the free list. */
  lemma EveryConnectionHasTwoPlaces(max: int, events: seq<Event>, c: Connection)
    ensures var r := Run(Next, Init(max), events);
            r.Some? ==>
              var s := r.value;
              && s.log.leases[c] <= 2
              && multiset(s.free)[c] <= 2
              && (c in s.log.leases || c in s.free ==> c in s.log.connected)
              && (c in s.log.connected && c !in s.log.removed ==>
                    && multiset(s.free)[c] + s.log.leases[c] == 2
                    && (s.log.leases[c] == 2 <==> c !in s.free))
  {
    RunsKeepLeases(max, events, c);
  }

  /** Connected connections stay live until they are removed. */
  ghost predicate LiveInv(s: Pool) {
    forall c: Connection :: c in s.log.connected && c !in s.log.removed ==> c in s.live
  }

  lemma PumpKeepsLive(s: Pool)
    requires LiveInv(s)
    ensures LiveInv(Pump(s))
  {
  }

  lemma RemovalKeepsLive(s: Pool, d: Connection)
    requires LiveInv(s)
    ensures LiveInv(Pump(Remove(s, d)))
  {
    assert LiveInv(Remove(s, d));
    PumpKeepsLive(Remove(s, d));
  }

  lemma StepKeepsLive(s: Pool, e: Event)
    requires LiveInv(s) && Next(s, e).Some?
    ensures LiveInv(Next(s, e).value)
  {
    match e
    case AcquireEvent => PumpKeepsLive(s.(requests := s.requests + [s.nextRequest], nextRequest := s.nextRequest + 1));
    case ReleaseEvent(d) => PumpKeepsLive(s.(free := s.free + [d], log := s.log.(leases := s.log.leases - multiset{d})));
    case ConnectEvent(_) =>
    case ErrorEvent(d) => RemovalKeepsLive(s, d);
    case CloseEvent(d) => RemovalKeepsLive(s.(log := s.log.(closed := s.log.closed + {d})), d);
    case ShutdownEvent =>
  }

  lemma RunsKeepLive(max: int, events: seq<Event>)
    ensures var r := Run(Next, Init(max), events); r.Some? ==> LiveInv(r.value)
  {
    forall a, e | LiveInv(a) && Next(a, e).Some? ensures LiveInv(Next(a, e).value) {
      StepKeepsLive(a, e);
    }
    InvariantOfRuns(Next, LiveInv, Init(max), events);
  }

  /** Of any connections that have a place, free or with a caller, at most `max` were never removed:
      while no connected connection has been removed, the limit bounds the connections in use. */
  lemma PlacesAreWithinTheLimit(max: int, events: seq<Event>, placed: set<Connection>)
    requires max >= 0
    ensures var r := Run(Next, Init(max), events);
            r.Some? && (forall c :: c in placed ==> Holders(r.value, c) > 0) ==>
              && |placed - r.value.log.removed| <= max
              && (placed !! r.value.log.removed ==> |placed| <= max)
  {
    RunsKeepBound(max, events);
    RunsKeepLive(max, events);
    var r := Run(Next, Init(max), events);
    if r.Some? && forall c :: c in placed ==> Holders(r.value, c) > 0 {
      forall c | c in placed ensures c in r.value.log.connected {
        RunsKeepLeases(max, events, c);
      }
      SubsetIsSmaller(placed - r.value.log.removed, r.value.live);
      if placed !! r.value.log.removed {
        assert placed - r.value.log.removed == placed;
      }
    }
  }

  lemma {:induction false} SubsetIsSmaller(a: set<Connection>, b: set<Connection>)
    requires a <= b
    ensures |a| <= |b|
    decreases |a|
  {
    if a != {} {
      var c :| c in a;
      SubsetIsSmaller(a - {c}, b - {c});
    }
  }

  /** With a limit of one, two connections are held at once after the first had an error. */
  lemma RemovedConnectionExceedsTheLimit()
    ensures var r := Run(Next, Init(1), [AcquireEvent, ConnectEvent(0), ErrorEvent(0)] + [AcquireEvent, ConnectEvent(1)]);
            r.Some? && r.value.log.leases == multiset{0, 1}
  {
    RunOfThree(Next, Init(1), AcquireEvent, ConnectEvent(0), ErrorEvent(0));
    var s := Next(Init(1), AcquireEvent).value;
    assert s.requests == [0] && s.free == [] && s.pending == {0};
    var t := Next(s, ConnectEvent(0)).value;
    assert t.requests == [] && t.free == [0] && t.live == {0} && t.pending == {};
    var u := Next(t, ErrorEvent(0)).value;
    assert u.requests == [] && u.free == [] && u.live == {} && u.log.leases == multiset{0};
    RunAppend(Next, Init(1), [AcquireEvent, ConnectEvent(0), ErrorEvent(0)], [AcquireEvent, ConnectEvent(1)]);
    var v := Next(u, AcquireEvent).value;
    assert v.requests == [1] && v.free == [] && v.nextConnection == 2 && v.log.leases == multiset{0};
    RunOfTwo(Next, u, AcquireEvent, ConnectEvent(1));
  }

  /** Leases are not exclusive: the second of two requests gets the connection the first one holds. */
  lemma SecondRequestSharesTheConnection(max: int)
    requires max != 0
    ensures var r := Run(Next, Init(max), [AcquireEvent, ConnectEvent(0), AcquireEvent]);
            r.Some? && r.value.log.settled == [Served(0, 0), Served(1, 0)] && r.value.log.leases[0] == 2
  {
    var s := Init(max).(requests := [0], nextRequest := 1, pending := {0}, nextConnection := 1);
    assert Init(max).requests + [0] == [0] && Init(max).pending + {0} == {0};
    assert Next(Init(max), AcquireEvent) == Some(s);
    var t := Next(s, ConnectEvent(0)).value;
    assert t.requests == [] && t.free == [0] && t.nextRequest == 1;
    assert t.log.settled == [Served(0, 0)] && t.log.leases == multiset{0};
    AcquireServesTheLast(t);
    assert Acquire(t).log.leases == multiset{0, 0};
    RunOfThree(Next, Init(max), AcquireEvent, ConnectEvent(0), AcquireEvent);
  }

  // ---------------------------------------------------------------- connections out of rotation

  /** Served after the first `from` requests were settled. */
  ghost predicate ServedSince(settled: seq<Settled>, from: nat, c: Connection) {
    exists i :: from <= i < |settled| && settled[i].Served? && settled[i].connection == c
  }

  /** A connection without a place that will not connect again. */
  ghost predicate Gone(s: Pool, c: Connection) { c in s.log.connected && Holders(s, c) == 0 }

  /** What was settled stays, and nothing after `from` is served with c. */
  ghost predicate NotServed(s: Pool, t: Pool, c: Connection) {
    && |s.log.settled| <= |t.log.settled|
    && !ServedSince(t.log.settled, |s.log.settled|, c)
  }

  lemma ResolveServesItsConnection(s: Pool, d: Connection, c: Connection)
    requires d != c
    ensures NotServed(s, Resolve(s, d), c)
  {
  }

  lemma PumpServesAPlace(s: Pool, c: Connection)
    requires Gone(s, c)
    ensures Gone(Pump(s), c) && NotServed(s, Pump(s), c)
  {
    PumpKeepsHolders(s, c);
    if s.requests != [] && s.free != [] {
      var last := |s.free| - 1;
      assert s.free[last] in multiset(s.free);
      ResolveServesItsConnection(s.(free := s.free[..last]), s.free[last], c);
    }
  }

  lemma RemoveLeavesGone(s: Pool, d: Connection, c: Connection)
    requires Gone(s, c)
    ensures Gone(Remove(s, d), c) && Remove(s, d).log.settled == s.log.settled
  {
    SplicedCount(s.free, d);
  }

  lemma ConnectLeavesGone(s: Pool, d: Connection, c: Connection)
    requires Gone(s, c) && d != c
    ensures Gone(OnConnect(s, d), c) && NotServed(s, OnConnect(s, d), c)
  {
    var t := s.(pending := s.pending - {d}, live := s.live + {d}, free := s.free + [d],
                log := s.log.(connected := s.log.connected + {d}));
    assert Holders(t, c) == 0;
    ResolveAddsOneHolder(t, d, c);
    ResolveServesItsConnection(t, d, c);
  }

  lemma ReleaseLeavesGone(s: Pool, d: Connection, c: Connection)
    requires Gone(s, c) && d in s.log.leases
    ensures Gone(Release(s, d), c) && NotServed(s, Release(s, d), c)
  {
    var t := s.(free := s.free + [d], log := s.log.(leases := s.log.leases - multiset{d}));
    assert Holders(t, c) == Holders(s, c);
    PumpServesAPlace(t, c);
  }

  lemma AcquireLeavesGone(s: Pool, c: Connection)
    requires Gone(s, c)
    ensures Gone(Acquire(s), c) && NotServed(s, Acquire(s), c)
  {
    PumpServesAPlace(s.(requests := s.requests + [s.nextRequest], nextRequest := s.nextRequest + 1), c);
  }

  lemma RemovalLeavesGone(s: Pool, d: Connection, c: Connection)
    requires Gone(s, c)
    ensures Gone(Pump(Remove(s, d)), c) && NotServed(s, Pump(Remove(s, d)), c)
  {
    RemoveLeavesGone(s, d, c);
    PumpServesAPlace(Remove(s, d), c);
  }

  lemma RejectLeavesGone(s: Pool, c: Connection)
    requires Gone(s, c)
    ensures Gone(Reject(s), c) && NotServed(s, Reject(s), c)
  {
  }

  lemma StepLeavesGone(s: Pool, e: Event, c: Connection)
    requires Gone(s, c) && Next(s, e).Some?
    ensures Gone(Next(s, e).value, c) && NotServed(s, Next(s, e).value, c)
  {
    match e
    case AcquireEvent => AcquireLeavesGone(s, c);
    case ReleaseEvent(d) => ReleaseLeavesGone(s, d, c);
    case ConnectEvent(d) => ConnectLeavesGone(s, d, c);
    case ErrorEvent(d) =>
      if d in s.pending {
        RejectLeavesGone(s, c);
      } else {
        RemovalLeavesGone(s, d, c);
      }
    case CloseEvent(d) => RemovalLeavesGone(s.(log := s.log.(closed := s.log.closed + {d})), d, c);
    case ShutdownEvent =>
  }

  /** A connection that has lost both places is never served again. */
  lemma {:induction false} GoneIsNeverServed(s: Pool, events: seq<Event>, c: Connection)
    requires Gone(s, c) && Run(Next, s, events).Some?
    ensures NotServed(s, Run(Next, s, events).value, c)
    decreases |events|
  {
    if events != [] {
      var t := Next(s, events[0]).value;
      StepLeavesGone(s, events[0], c);
      GoneIsNeverServed(t, events[1..], c);
      SettledOnlyGrows(t, events[1..]);
    }
  }

  lemma ResolveOnlySettles(s: Pool, c: Connection)
    ensures s.log.settled <= Resolve(s, c).log.settled && s.log.settled <= Reject(s).log.settled
  {
  }

  lemma PumpOnlySettles(s: Pool)
    ensures s.log.settled <= Pump(s).log.settled
  {
    if s.requests != [] && s.free != [] {
      ResolveOnlySettles(s.(free := s.free[..|s.free| - 1]), s.free[|s.free| - 1]);
    }
  }

  lemma ConnectOnlySettles(s: Pool, c: Connection)
    ensures s.log.settled <= OnConnect(s, c).log.settled
  {
    ResolveOnlySettles(s.(pending := s.pending - {c}, live := s.live + {c}, free := s.free + [c],
                          log := s.log.(connected := s.log.connected + {c})), c);
  }

  lemma RemovalOnlySettles(s: Pool, c: Connection)
    ensures s.log.settled <= Pump(Remove(s, c)).log.settled
  {
    PumpOnlySettles(Remove(s, c));
  }

  lemma AcquireOnlySettles(s: Pool)
    ensures s.log.settled <= Acquire(s).log.settled
  {
    PumpOnlySettles(s.(requests := s.requests + [s.nextRequest], nextRequest := s.nextRequest + 1));
  }

  lemma ReleaseOnlySettles(s: Pool, c: Connection)
    ensures s.log.settled <= Release(s, c).log.settled
  {
    PumpOnlySettles(s.(free := s.free + [c], log := s.log.(leases := s.log.leases - multiset{c})));
  }

  lemma ErrorOnlySettles(s: Pool, c: Connection)
    ensures s.log.settled <= OnError(s, c).log.settled
  {
    ResolveOnlySettles(s, c);
    RemovalOnlySettles(s, c);
  }

  lemma CloseOnlySettles(s: Pool, c: Connection)
    ensures s.log.settled <= OnClose(s, c).log.settled
  {
    RemovalOnlySettles(s.(log := s.log.(closed := s.log.closed + {c})), c);
  }

  lemma StepOnlySettles(s: Pool, e: Event)
    requires Next(s, e).Some?
    ensures s.log.settled <= Next(s, e).value.log.settled
  {
    match e
    case AcquireEvent => AcquireOnlySettles(s);
    case ReleaseEvent(c) => ReleaseOnlySettles(s, c);
    case ConnectEvent(c) => ConnectOnlySettles(s, c);
    case ErrorEvent(c) => ErrorOnlySettles(s, c);
    case CloseEvent(c) => CloseOnlySettles(s, c);
    case ShutdownEvent =>
  }

  lemma {:induction false} SettledOnlyGrows(s: Pool, events: seq<Event>)
    requires Run(Next, s, events).Some?
    ensures s.log.settled <= Run(Next, s, events).value.log.settled
    decreases |events|
  {
    if events != [] {
      StepOnlySettles(s, events[0]);
      SettledOnlyGrows(Next(s, events[0]).value, events[1..]);
    }
  }

  /** An acquire serves the last connection of the free list. */
  lemma AcquireServesTheLast(s: Pool)
    requires s.free != []
    ensures var t, last := Acquire(s), |s.free| - 1;
            && t.free == s.free[..last] && |t.log.settled| == |s.log.settled| + 1
            && t.log.settled[|s.log.settled|].Served? && t.log.settled[|s.log.settled|].connection == s.free[last]
  {
  }

  /** Enough acquires serve every connection of the free list. */
  lemma {:induction false} FreeIsServed(s: Pool, c: Connection) returns (events: seq<Event>)
    requires c in s.free
    ensures Run(Next, s, events).Some? && ServedSince(Run(Next, s, events).value.log.settled, |s.log.settled|, c)
    decreases |s.free|
  {
    var t, last := Acquire(s), |s.free| - 1;
    AcquireServesTheLast(s);
    assert Next(s, AcquireEvent) == Some(t);
    if s.free[last] == c {
      assert [AcquireEvent][1..] == [];
      events := [AcquireEvent];
    } else {
      var more := FreeIsServed(t, c);
      events := [AcquireEvent] + more;
      assert events[1..] == more;
    }
  }

  /** A lease given back is served at once to a waiting request, or is free. */
  lemma LeasedIsServed(s: Pool, c: Connection) returns (events: seq<Event>)
    requires c in s.log.leases
    ensures Run(Next, s, events).Some? && ServedSince(Run(Next, s, events).value.log.settled, |s.log.settled|, c)
  {
    var t := Release(s, c);
    assert Next(s, ReleaseEvent(c)) == Some(t);
    if s.requests != [] {
      assert (s.free + [c])[|s.free|] == c;
      assert [ReleaseEvent(c)][1..] == [];
      assert t.log.settled[|s.log.settled|] == Served(s.requests[0], c);
      events := [ReleaseEvent(c)];
    } else {
      var more := FreeIsServed(t, c);
      events := [ReleaseEvent(c)] + more;
      assert events[1..] == more;
    }
  }

  ghost predicate CanBeServed(s: Pool, c: Connection) {
    exists events :: Run(Next, s, events).Some? && ServedSince(Run(Next, s, events).value.log.settled, |s.log.settled|, c)
  }

  /** A connection that has connected can still be served exactly when it has a place left, removed
      from the pool or not. */
  lemma ConnectionIsServedAgainIff(s: Pool, c: Connection)
    requires c in s.log.connected
    ensures CanBeServed(s, c) <==> Holders(s, c) > 0
  {
    if Holders(s, c) == 0 {
      forall events | Run(Next, s, events).Some?
        ensures !ServedSince(Run(Next, s, events).value.log.settled, |s.log.settled|, c)
      {
        GoneIsNeverServed(s, events, c);
      }
    } else if c in s.log.leases {
      var events := LeasedIsServed(s, c);
    } else {
      assert c in multiset(s.free);
      var events := FreeIsServed(s, c);
    }
  }

  /** Removing takes one place of the free list, if there is one. */
  lemma RemovalTakesAPlace(s: Pool, c: Connection)
    requires LeaseInv(s, c) && c in s.log.connected && c !in s.log.removed
    ensures var t := Pump(Remove(s, c));
            Holders(t, c) == (if c in s.free then 1 else 2) && c in t.log.connected
  {
    SplicedCount(s.free, c);
    assert c in s.free <==> c in multiset(s.free);
    PumpKeepsHolders(Remove(s, c), c);
  }

  lemma EventTakesAPlace(s: Pool, c: Connection, e: Event)
    requires e == ErrorEvent(c) || e == CloseEvent(c)
    requires LeaseInv(s, c) && BoundInv(s) && c in s.log.connected && c !in s.log.removed
    ensures Next(s, e).Some?
    ensures var t := Next(s, e).value; Holders(t, c) == (if c in s.free then 1 else 2) && c in t.log.connected
  {
    assert c !in s.pending;
    if e.CloseEvent? {
      RemovalTakesAPlace(s.(log := s.log.(closed := s.log.closed + {c})), c);
    } else {
      RemovalTakesAPlace(s, c);
    }
  }

  /** After the first error or close of a connected connection it still has a place and can be
      served, so it is not out of rotation. */
  lemma FirstRemovalLeavesAPlace(max: int, events: seq<Event>, c: Connection, e: Event)
    requires e == ErrorEvent(c) || e == CloseEvent(c)
    ensures var r := Run(Next, Init(max), events);
            r.Some? && c in r.value.log.connected && c !in r.value.log.removed ==>
              && Next(r.value, e).Some?
              && Holders(Next(r.value, e).value, c) == (if c in r.value.free then 1 else 2)
              && CanBeServed(Next(r.value, e).value, c)
  {
    var r := Run(Next, Init(max), events);
    RunsKeepBound(max, events);
    RunsKeepLeases(max, events, c);
    if r.Some? && c in r.value.log.connected && c !in r.value.log.removed {
      EventTakesAPlace(r.value, c, e);
      ConnectionIsServedAgainIff(Next(r.value, e).value, c);
    }
  }

  // ---------------------------------------------------------------- order of service

  /** The requests taken off the queue, in that order, followed by those waiting, are all requests made. */
  ghost predicate Ordered(settled: seq<Settled>, waiting: seq<Request>, made: nat) {
    && |settled| + |waiting| == made
    && (forall i :: 0 <= i < |settled| ==> settled[i].request == i)
    && (forall i :: 0 <= i < |waiting| ==> waiting[i] == |settled| + i)
  }

  ghost predicate OrderInv(s: Pool) { Ordered(s.log.settled, s.requests, s.nextRequest) }

  /** Taking the head off the queue keeps the order, whatever becomes of it. */
  lemma ResolveKeepsOrder(s: Pool, c: Connection)
    requires OrderInv(s)
    ensures OrderInv(Resolve(s, c)) && OrderInv(Reject(s))
  {
  }

  lemma PumpKeepsOrder(s: Pool)
    requires OrderInv(s)
    ensures OrderInv(Pump(s))
  {
    if s.requests != [] && s.free != [] {
      ResolveKeepsOrder(s.(free := s.free[..|s.free| - 1]), s.free[|s.free| - 1]);
    }
  }

  lemma AcquireKeepsOrder(s: Pool)
    requires OrderInv(s)
    ensures OrderInv(Acquire(s))
  {
    PumpKeepsOrder(s.(requests := s.requests + [s.nextRequest], nextRequest := s.nextRequest + 1));
  }

  lemma StepKeepsOrder(s: Pool, e: Event)
    requires OrderInv(s) && Next(s, e).Some?
    ensures OrderInv(Next(s, e).value)
  {
    match e
    case AcquireEvent => AcquireKeepsOrder(s);
    case ReleaseEvent(c) =>
      PumpKeepsOrder(s.(free := s.free + [c], log := s.log.(leases := s.log.leases - multiset{c})));
    case ConnectEvent(c) =>
      ResolveKeepsOrder(s.(pending := s.pending - {c}, live := s.live + {c}, free := s.free + [c],
                           log := s.log.(connected := s.log.connected + {c})), c);
    case ErrorEvent(c) =>
      ResolveKeepsOrder(s, c);
      PumpKeepsOrder(Remove(s, c));
    case CloseEvent(c) =>
      PumpKeepsOrder(Remove(s.(log := s.log.(closed := s.log.closed + {c})), c));
    case ShutdownEvent =>
  }

  /** Requests leave the pool in the order they were made, and each leaves at most once. */
  lemma RequestsLeaveInOrder(max: int, events: seq<Event>)
    ensures var r := Run(Next, Init(max), events);
            r.Some? ==>
              Ordered(r.value.log.settled, r.value.requests, r.value.nextRequest)
  {
    forall a, e | OrderInv(a) && Next(a, e).Some? ensures OrderInv(Next(a, e).value) {
      StepKeepsOrder(a, e);
    }
    InvariantOfRuns(Next, OrderInv, Init(max), events);
  }

  // ---------------------------------------------------------------- progress

  /** The requests waiting, the connections free and the connections counted when an event has done
      its own work and looks for something to serve. */
  function Waiting(s: Pool, e: Event): seq<Request> {
    if e.AcquireEvent? then s.requests + [s.nextRequest] else s.requests
  }

  function Offered(s: Pool, e: Event): seq<Connection> {
    match e
    case ReleaseEvent(c) => s.free + [c]
    case ErrorEvent(c) => Spliced(s.free, c)
    case CloseEvent(c) => Spliced(s.free, c)
    case _ => s.free
  }

  function Counted(s: Pool, e: Event): set<Connection> {
    if e.ErrorEvent? || e.CloseEvent? then (s.live + s.pending) - {e.c} else s.live + s.pending
  }

  /** The oldest request is served with connection c and leaves the queue. */
  ghost predicate Serves(s: Pool, e: Event, t: Pool, c: Connection) {
    && Waiting(s, e) != []
    && t.log.settled == s.log.settled + [Served(Waiting(s, e)[0], c)]
    && t.requests == Waiting(s, e)[1..]
  }

  /** Nothing is settled, and every waiting request stays. */
  ghost predicate Waits(s: Pool, e: Event, t: Pool) {
    t.log.settled == s.log.settled && t.requests == Waiting(s, e)
  }

  lemma PumpProgress(s: Pool)
    requires s.requests != []
    ensures var t := Pump(s);
            if s.free != [] then
              && t.log.settled == s.log.settled + [Served(s.requests[0], s.free[|s.free| - 1])]
              && t.requests == s.requests[1..] && t.free == s.free[..|s.free| - 1] && t.pending == s.pending
            else
              && t.log.settled == s.log.settled && t.requests == s.requests && t.free == []
              && t.pending == s.pending + if |s.live| + |s.pending| == s.max then {} else {s.nextConnection}
  {
  }

  lemma CountedSize(a: set<Connection>, b: set<Connection>)
    requires a !! b
    ensures |a + b| == |a| + |b|
  {
  }

  /** The state in which an event pumps. */
  function BeforePump(s: Pool, e: Event): Pool {
    match e
    case AcquireEvent => s.(requests := s.requests + [s.nextRequest], nextRequest := s.nextRequest + 1)
    case ReleaseEvent(c) => s.(free := s.free + [c], log := s.log.(leases := s.log.leases - multiset{c}))
    case ErrorEvent(c) => Remove(s, c)
    case CloseEvent(c) => Remove(s.(log := s.log.(closed := s.log.closed + {c})), c)
    case _ => s
  }

  lemma EventPumps(s: Pool, e: Event)
    requires Next(s, e).Some? && Pumps(s, e)
    ensures Next(s, e).value == Pump(BeforePump(s, e))
  {
  }

  lemma BeforePumpMeaning(s: Pool, e: Event)
    requires s.live !! s.pending
    ensures var b := BeforePump(s, e);
            && b.requests == Waiting(s, e) && b.free == Offered(s, e) && b.log.settled == s.log.settled
            && b.live !! b.pending && b.live + b.pending == Counted(s, e)
            && b.max == s.max && b.nextConnection == s.nextConnection
  {
  }

  /** The oldest request is served with the last free connection; if none is free one more connection
      is opened, unless the pool is full. */
  ghost predicate Progresses(s: Pool, e: Event, t: Pool) {
    var free, counted := Offered(s, e), Counted(s, e);
    if free != [] then
      Serves(s, e, t, free[|free| - 1]) && t.free == free[..|free| - 1] && t.live + t.pending == counted
    else
      && Waits(s, e, t) && t.free == []
      && t.live + t.pending == counted + if |counted| == s.max then {} else {s.nextConnection}
  }

  /** Events that look for something to serve: all but a connect, a shutdown, and an error of a
      connection that never connected. */
  ghost predicate Pumps(s: Pool, e: Event) {
    !e.ConnectEvent? && !e.ShutdownEvent? && (e.ErrorEvent? ==> e.c !in s.pending)
  }

  lemma EventProgress(s: Pool, e: Event)
    requires BoundInv(s) && Next(s, e).Some? && Pumps(s, e) && Waiting(s, e) != []
    ensures Progresses(s, e, Next(s, e).value)
  {
    var b := BeforePump(s, e);
    EventPumps(s, e);
    BeforePumpMeaning(s, e);
    PumpProgress(b);
    PumpKeepsLiveSet(b);
    CountedSize(b.live, b.pending);
  }

  /** After every run, with a request waiting, an acquire, a release, a close or an error of a connection
      that had connected makes progress. */
  lemma EventsMakeProgress(max: int, events: seq<Event>, e: Event)
    ensures var r := Run(Next, Init(max), events);
            r.Some? && Next(r.value, e).Some? && Pumps(r.value, e) && Waiting(r.value, e) != [] ==>
              r.value.max == max && Progresses(r.value, e, Next(r.value, e).value)
  {
    RunsKeepBound(max, events);
    var r := Run(Next, Init(max), events);
    if r.Some? && Next(r.value, e).Some? && Pumps(r.value, e) && Waiting(r.value, e) != [] {
      EventProgress(r.value, e);
    }
  }

  lemma PumpKeepsLiveSet(s: Pool)
    ensures Pump(s).live == s.live
  {
  }

  /** A connect event serves the oldest waiting request with the connection, and keeps its second place free. */
  lemma ConnectServes(s: Pool, c: Connection)
    requires Next(s, ConnectEvent(c)).Some?
    ensures var t := Next(s, ConnectEvent(c)).value;
            && t.live == s.live + {c} && t.pending == s.pending - {c}
            && if s.requests != [] then Serves(s, ConnectEvent(c), t, c) && t.free == s.free + [c]
               else Waits(s, ConnectEvent(c), t) && t.free == s.free + [c, c]
  {
    assert s.free + [c] + [c] == s.free + [c, c];
  }

  /** An error of a connection that never connected rejects the oldest waiting request, if there is
      one, and changes nothing else. */
  lemma PendingErrorRejects(s: Pool, c: Connection)
    requires Next(s, ErrorEvent(c)).Some? && c in s.pending
    ensures var t := Next(s, ErrorEvent(c)).value;
            && (s.requests == [] ==> t == s)
            && (s.requests != [] ==> t.requests == s.requests[1..] && t.log.settled == s.log.settled + [Rejected(s.requests[0])])
            && t.live == s.live && t.pending == s.pending && t.free == s.free
  {
  }

  // ---------------------------------------------------------------- the manager as written

  /** HttpClientConnectionManager: each method does in place what the function of that name says. */
  class HttpClientConnectionManager {
    const max: int
    var pending: set<Connection>
    var live: set<Connection>
    var free: seq<Connection>
    var requests: seq<Request>
    var nextConnection: Connection
    var nextRequest: Request
    ghost var log: Log

    ghost function Value(): Pool
      reads this
    {
      Pool(max, pending, live, free, requests, nextConnection, nextRequest, log)
    }

    constructor (max: int)
      ensures Value() == Init(max)
    {
      this.max := max;
      pending, live, free, requests, nextConnection, nextRequest := {}, {}, [], [], 0, 0;
      log := Log([], multiset{}, {}, {}, {});
    }

    method FindFree(c: Connection) returns (index: int)
      ensures index == IndexOf(free, c)
    {
      var i := 0;
      while i < |free|
        invariant 0 <= i <= |free|
        invariant IndexOf(free, c) == (var rest := IndexOf(free[i..], c); if rest == -1 then -1 else rest + i)
      {
        if free[i] == c {
          return i;
        }
        assert free[i..][1..] == free[i + 1..];
        i := i + 1;
      }
      return -1;
    }

    method RemoveConnection(c: Connection)
      modifies this
      ensures Value() == Remove(old(Value()), c)
    {
      pending := pending - {c};
      live := live - {c};
      log := log.(removed := log.removed + {c});
      var index := FindFree(c);
      if index != -1 {
        free := free[..index] + free[index + 1..];
      }
    }

    method ResolveNext(c: Connection)
      modifies this
      ensures Value() == Resolve(old(Value()), c)
    {
      if requests != [] {
        var request := requests[0];
        requests := requests[1..];
        log := log.(settled := log.settled + [Served(request, c)], leases := log.leases + multiset{c});
      } else {
        free := free + [c];
      }
    }

    method RejectNext()
      modifies this
      ensures Value() == Reject(old(Value()))
    {
      if requests != [] {
        var request := requests[0];
        requests := requests[1..];
        log := log.(settled := log.settled + [Rejected(request)]);
      }
    }

    method PumpRequests()
      modifies this
      ensures Value() == Pump(old(Value()))
    {
      if |requests| == 0 {
        return;
      }
      if |free| > 0 {
        var connection := free[|free| - 1];
        free := free[..|free| - 1];
        ResolveNext(connection);
        return;
      }
      if |live| + |pending| == max {
        return;
      }
      pending := pending + {nextConnection};
      nextConnection := nextConnection + 1;
    }

    method AcquireConnection() returns (request: Request)
      modifies this
      ensures Value() == Acquire(old(Value()))
      ensures request == old(nextRequest)
    {
      request := nextRequest;
      nextRequest := nextRequest + 1;
      requests := requests + [request];
      PumpRequests();
    }

    method ReleaseConnection(c: Connection)
      modifies this
      ensures Value() == Release(old(Value()), c)
    {
      free := free + [c];
      log := log.(leases := log.leases - multiset{c});
      PumpRequests();
    }

    method HandleConnect(c: Connection)
      modifies this
      ensures Value() == OnConnect(old(Value()), c)
    {
      pending := pending - {c};
      live := live + {c};
      free := free + [c];
      log := log.(connected := log.connected + {c});
      ResolveNext(c);
    }

    method HandleError(c: Connection)
      modifies this
      ensures Value() == OnError(old(Value()), c)
    {
      if c in pending {
        RejectNext();
        return;
      }
      RemoveConnection(c);
      PumpRequests();
    }

    method HandleClose(c: Connection)
      modifies this
      ensures Value() == OnClose(old(Value()), c)
    {
      log := log.(closed := log.closed + {c});
      RemoveConnection(c);
      PumpRequests();
    }
  }
}
