/** Runs of an event-driven system and the one induction principle used by every protocol module.

A system is a partial step function: an event that the system cannot take in a
state has no successor. A run is a list of events taken one after the other.
*/
module Runs {

  datatype Option<+T> = None | Some(value: T)

  /** The state after `events`, or None when one of them cannot happen where it stands. */
  function Run<S, E>(next: (S, E) -> Option<S>, s: S, events: seq<E>): Option<S>
    decreases |events|
  {
    if events == [] then
      Some(s)
    else
      match next(s, events[0])
      case None => None
      case Some(t) => Run(next, t, events[1..])
  }

  /** What holds at the start and is kept by every step holds after every run. */
  lemma {:induction false} InvariantOfRuns<S(!new), E(!new)>(next: (S, E) -> Option<S>, inv: S -> bool, s: S, events: seq<E>)
    requires inv(s)
    requires forall a, e :: inv(a) && next(a, e).Some? ==> inv(next(a, e).value)
    ensures Run(next, s, events).Some? ==> inv(Run(next, s, events).value)
    decreases |events|
  {
    if events == [] {
    } else {
      var r := next(s, events[0]);
      if r.Some? {
        InvariantOfRuns(next, inv, r.value, events[1..]);
      }
    }
  }

  /** Runs compose. */
  lemma {:induction false} RunAppend<S, E>(next: (S, E) -> Option<S>, s: S, first: seq<E>, second: seq<E>)
    ensures Run(next, s, first + second) ==
            (if Run(next, s, first).Some? then Run(next, Run(next, s, first).value, second) else None)
    decreases |first|
  {
    if first == [] {
      assert first + second == second;
    } else {
      assert (first + second)[0] == first[0];
      assert (first + second)[1..] == first[1..] + second;
      var r := next(s, first[0]);
      if r.Some? {
        RunAppend(next, r.value, first[1..], second);
      }
    }
  }

  lemma RunOfTwo<S, E>(next: (S, E) -> Option<S>, s: S, first: E, second: E)
    requires next(s, first).Some?
    ensures Run(next, s, [first, second]) == next(next(s, first).value, second)
  {
    var t := next(s, first).value;
    assert [first, second][1..] == [second];
    assert Run(next, t, [second]) == next(t, second) by { assert [second][1..] == []; }
  }

  lemma RunOfThree<S, E>(next: (S, E) -> Option<S>, s: S, first: E, second: E, third: E)
    requires next(s, first).Some? && next(next(s, first).value, second).Some?
    ensures Run(next, s, [first, second, third]) == next(next(next(s, first).value, second).value, third)
  {
    assert [first, second, third][1..] == [second, third];
    RunOfTwo(next, next(s, first).value, second, third);
  }
}
