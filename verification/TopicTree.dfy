/** The trie as a value: which paths have a node, and the value at each.

`Walk` is the lookup of the topic trie. Its answers are judged against the topic filters of
section 4.7.1 of MQTT 3.1.1, and the plain trie is shown to be a finite map on keys.
*/
module TopicTree {
  import opened Runs
  import opened KeySplit

  type Path = seq<string>

  /** A node's value is None where the source holds undefined. */
  type Tree<T> = map<Path, Option<T>>

  const HASH: string := "#"
  const PLUS: string := "+"

  function Empty<T>(): Tree<T> { map[[] := None] }

  function Parent(p: Path): Path
    requires p != []
  {
    p[..|p| - 1]
  }

  /** Every node hangs from its parent. */
  ghost predicate Closed<V>(t: map<Path, V>) {
    [] in t && forall p {:trigger Parent(p)} :: p in t && p != [] ==> Parent(p) in t
  }

  lemma {:induction false} PrefixesArePresent<V>(t: map<Path, V>, p: Path, q: Path)
    requires Closed(t) && p in t && q <= p
    ensures q in t
    decreases |p|
  {
    if q != p {
      assert q <= Parent(p);
      PrefixesArePresent(t, Parent(p), q);
    }
  }

  /** The value stored at exactly this path. */
  function At<T>(t: Tree<T>, p: Path): Option<T> { if p in t then t[p] else None }

  // ---------------------------------------------------------------- the plain trie

  /** Creates the missing nodes on the way to `parts`. */
  function Grow<T>(t: Tree<T>, parts: Path): (r: Tree<T>)
    ensures parts in r
    decreases |parts|
  {
    if parts in t then t
    else if parts == [] then t[[] := None]
    else Grow(t, Parent(parts))[parts := None]
  }

  lemma {:induction false} GrowMeaning<T>(t: Tree<T>, parts: Path, p: Path)
    requires Closed(t)
    ensures p in Grow(t, parts) <==> p in t || p <= parts
    ensures At(Grow(t, parts), p) == At(t, p)
    decreases |parts|
  {
    if parts in t {
      if p <= parts {
        PrefixesArePresent(t, parts, p);
      }
    } else {
      GrowMeaning(t, Parent(parts), p);
      assert p <= parts <==> p == parts || p <= Parent(parts);
    }
  }

  lemma GrowStaysClosed<T>(t: Tree<T>, parts: Path)
    requires Closed(t)
    ensures Closed(Grow(t, parts))
  {
    var r := Grow(t, parts);
    GrowMeaning(t, parts, []);
    forall p | p in r && p != [] ensures Parent(p) in r {
      GrowMeaning(t, parts, p);
      GrowMeaning(t, parts, Parent(p));
    }
  }

  function Insert<T>(t: Tree<T>, parts: Path, value: Option<T>): Tree<T> { Grow(t, parts)[parts := value] }

  /** Cuts the node at `parts` off its parent, and so everything below it. */
  function Cut<V>(t: map<Path, V>, parts: Path): map<Path, V> { map p | p in t && !(parts <= p) :: t[p] }

  function Remove<T>(t: Tree<T>, parts: Path): Tree<T> {
    if parts in t && parts != [] then Cut(t, parts) else t
  }

  /** Insert is update at one path; the rest of the trie keeps its values. */
  lemma InsertMeaning<T>(t: Tree<T>, parts: Path, value: Option<T>, p: Path)
    requires Closed(t)
    ensures At(Insert(t, parts, value), p) == if p == parts then value else At(t, p)
    ensures Closed(Insert(t, parts, value))
  {
    GrowMeaning(t, parts, p);
    GrowStaysClosed(t, parts);
    var g := Grow(t, parts);
    forall q | q in Insert(t, parts, value) && q != [] ensures Parent(q) in Insert(t, parts, value) {
      assert q in g;
      assert Parent(q) in g;
    }
  }

  /** Remove deletes exactly the paths that extend the given one, present or not; the root stays. */
  lemma RemoveMeaning<T>(t: Tree<T>, parts: Path, p: Path)
    requires Closed(t)
    ensures At(Remove(t, parts), p) == if parts != [] && parts <= p then None else At(t, p)
    ensures Closed(Remove(t, parts))
  {
    if parts <= p && p in t {
      PrefixesArePresent(t, p, parts);
    }
  }

  // ---------------------------------------------------------------- the plain trie refines a finite map

  datatype Op<T> = Put(key: string, value: Option<T>) | Drop(key: string)

  /** A trie next to the map it stands for. */
  datatype Paired<T> = Paired(tree: Tree<T>, keys: map<string, T>)

  function Apply<T>(s: Paired<T>, op: Op<T>, delimiter: string): Paired<T> {
    match op
    case Put(key, Some(v)) => Paired(Insert(s.tree, Split(key, delimiter), Some(v)), s.keys[key := v])
    case Put(key, None) => Paired(Insert(s.tree, Split(key, delimiter), None), s.keys - {key})
    case Drop(key) =>
      var gone := Split(key, delimiter);
      Paired(Remove(s.tree, gone), map k | k in s.keys && (gone == [] || !(gone <= Split(k, delimiter))) :: s.keys[k])
  }

  function PlainNext<T>(delimiter: string): (Paired<T>, Op<T>) -> Option<Paired<T>> {
    (s: Paired<T>, op: Op<T>) => Some(Apply(s, op, delimiter))
  }

  ghost predicate Agrees<T>(s: Paired<T>, delimiter: string, key: string) {
    At(s.tree, Split(key, delimiter)) == if key in s.keys then Some(s.keys[key]) else None
  }

  lemma StepAgrees<T>(s: Paired<T>, op: Op<T>, delimiter: string, key: string)
    requires Closed(s.tree) && Agrees(s, delimiter, key)
    ensures Closed(Apply(s, op, delimiter).tree) && Agrees(Apply(s, op, delimiter), delimiter, key)
  {
    SplitIsInjective(op.key, key, delimiter);
    match op
    case Put(k, v) => InsertMeaning(s.tree, Split(k, delimiter), v, Split(key, delimiter));
    case Drop(k) => RemoveMeaning(s.tree, Split(k, delimiter), Split(key, delimiter));
  }

  /** After any sequence of inserts and removes the trie answers every key as the map does. */
  lemma {:induction false} TrieRefinesMap<T>(s: Paired<T>, ops: seq<Op<T>>, delimiter: string, key: string)
    requires Closed(s.tree) && Agrees(s, delimiter, key)
    ensures var r := Run(PlainNext(delimiter), s, ops);
            r.Some? && Closed(r.value.tree) && Agrees(r.value, delimiter, key)
    decreases |ops|
  {
    if ops != [] {
      StepAgrees(s, ops[0], delimiter, key);
      TrieRefinesMap(Apply(s, ops[0], delimiter), ops[1..], delimiter, key);
    }
  }

  // ---------------------------------------------------------------- the topic trie

  /** How a walk ends: no node, a node reached through every part, or a `#` node met on the way. */
  datatype Answer = Nowhere | Reached(path: Path) | Caught(path: Path)

  function Walk<T>(t: Tree<T>, at: Path, rest: Path): Answer
    decreases |rest|
  {
    if rest == [] then Reached(at)
    else if at + [rest[0]] in t then Walk(t, at + [rest[0]], rest[1..])
    else if at + [HASH] in t then Caught(at + [HASH])
    else if at + [PLUS] in t then Walk(t, at + [PLUS], rest[1..])
    else Nowhere
  }

  function Lookup<T>(t: Tree<T>, topic: Path): Option<T> {
    match Walk(t, [], topic)
    case Nowhere => None
    case Reached(p) => At(t, p)
    case Caught(p) => At(t, p)
  }

  /** The walk of an insert creates what is missing, but still prefers existing wildcards. */
  function GrowTopic<T>(t: Tree<T>, at: Path, rest: Path): (r: (Tree<T>, Path))
    decreases |rest|
  {
    if rest == [] then (t, at)
    else if at + [rest[0]] in t then GrowTopic(t, at + [rest[0]], rest[1..])
    else if at + [HASH] in t then (t, at + [HASH])
    else if at + [PLUS] in t then GrowTopic(t, at + [PLUS], rest[1..])
    else GrowTopic(t[at + [rest[0]] := None], at + [rest[0]], rest[1..])
  }

  function Subscribe<T>(t: Tree<T>, filter: Path, value: Option<T>): Tree<T> {
    var (grown, p) := GrowTopic(t, [], filter);
    grown[p := value]
  }

  /** A walk caught by `#` deletes nothing; a walk through `+` deletes below `+`. */
  function Unsubscribe<T>(t: Tree<T>, filter: Path): Tree<T> {
    match Walk(t, [], filter)
    case Reached(p) => if p == [] then t else Cut(t, p)
    case _ => t
  }

  // ---------------------------------------------------------------- topic filters, section 4.7.1 of MQTT 3.1.1

  /** A multi-level wildcard is the last level and covers the parent and any number of child levels;
      a single-level wildcard covers exactly one level. */
  predicate Matches(filter: Path, topic: Path)
    decreases |filter|
  {
    if filter == [] then topic == []
    else if filter[0] == HASH then |filter| == 1
    else topic != [] && (filter[0] == PLUS || filter[0] == topic[0]) && Matches(filter[1..], topic[1..])
  }

  /** The reading the walk implements: `#` covers at least one level. */
  predicate MatchesBelow(filter: Path, topic: Path)
    decreases |filter|
  {
    if filter == [] then topic == []
    else if filter[0] == HASH then |filter| == 1 && topic != []
    else topic != [] && (filter[0] == PLUS || filter[0] == topic[0]) && MatchesBelow(filter[1..], topic[1..])
  }

  /** The two readings differ only on the parent level of a trailing `#`. */
  lemma {:induction false} ReadingsDifferOnlyAtTheParent(filter: Path, topic: Path)
    ensures Matches(filter, topic) <==>
              MatchesBelow(filter, topic) || (filter != [] && filter[|filter| - 1] == HASH && HASH !in Parent(filter) && MatchesBelow(Parent(filter), topic))
    decreases |filter|
  {
    if filter == [] {
    } else if |filter| == 1 {
      assert Parent(filter) == [];
    } else {
      assert Parent(filter)[0] == filter[0];
      assert Parent(filter)[1..] == Parent(filter[1..]);
      assert filter[0] != HASH ==> (HASH in Parent(filter) <==> HASH in Parent(filter[1..]));
      if topic != [] {
        ReadingsDifferOnlyAtTheParent(filter[1..], topic[1..]);
      }
    }
  }

  /** Examples of section 4.7.1. */
  lemma StandardExamples()
    ensures Matches(["sport", "#"], ["sport"]) && Matches(["sport", "#"], ["sport", "tennis", "p1"]) && Matches(["#"], ["a"])
    ensures Matches(["sport", "+"], ["sport", ""]) && !Matches(["sport", "+"], ["sport"])
    ensures Matches(["+", "b"], ["a", "b"]) && !Matches(["+", "b"], ["a", "c"]) && !Matches(["+"], ["a", "b"])
    ensures !Matches(["#", "b"], ["a", "b"])
  {
    assert ["sport", "#"][1..] == ["#"] && ["sport", "+"][1..] == ["+"] && ["+", "b"][1..] == ["b"];
    assert ["sport", ""][1..] == [""] && ["sport"][1..] == [] && ["a", "b"][1..] == ["b"] && ["a", "c"][1..] == ["c"];
    assert ["+"][1..] == [] && [""][1..] == [] && ["b"][1..] == [];
    assert Matches([], []) && Matches(["b"], ["b"]) && Matches(["+"], [""]);
    assert ["b"][0] != ["c"][0];
  }

  predicate WildcardFree(topic: Path) { HASH !in topic && PLUS !in topic }

  ghost predicate EndsAt(a: Answer, p: Path) { a == Reached(p) || a == Caught(p) }

  /** The child a walk takes for one part, where it takes one. */
  function Step<T>(t: Tree<T>, at: Path, part: string): string {
    if at + [part] in t then part else if at + [HASH] in t then HASH else PLUS
  }

  /** Soundness, in any tree at all: the path of the node found, read as a filter, matches the topic. */
  lemma {:induction false} WalkIsSound<T>(t: Tree<T>, at: Path, rest: Path)
    requires WildcardFree(rest)
    ensures var a := Walk(t, at, rest);
            !a.Nowhere? ==> at <= a.path && MatchesBelow(a.path[|at|..], rest)
    decreases |rest|
  {
    if rest == [] {
    } else {
      var step := Step(t, at, rest[0]);
      var a := Walk(t, at, rest);
      if step == HASH {
        assert a.path[|at|..] == [HASH];
      } else if at + [step] in t {
        WalkIsSound(t, at + [step], rest[1..]);
        if !a.Nowhere? {
          assert a.path[|at|..][0] == step;
          assert a.path[|at|..][1..] == a.path[|at + [step]|..];
        }
      }
    }
  }

  lemma LookupIsSound<T>(t: Tree<T>, topic: Path)
    requires WildcardFree(topic)
    ensures var a := Walk(t, [], topic);
            !a.Nowhere? ==> Matches(a.path, topic) && MatchesBelow(a.path, topic)
  {
    WalkIsSound(t, [], topic);
    var a := Walk(t, [], topic);
    if !a.Nowhere? {
      assert a.path[0..] == a.path;
      ReadingsDifferOnlyAtTheParent(a.path, topic);
    }
  }

  // ---------------------------------------------------------------- which filters a topic finds

  predicate IsWildcard(level: string) { level == HASH || level == PLUS }

  /** `#` occurs only as the last level; other filters match nothing. */
  predicate ProperFilter(filter: Path) { forall i :: 0 <= i < |filter| - 1 ==> filter[i] != HASH }

  /** No wildcard level of the filter has a sibling that the walk prefers: `+` is an only child, and
      `#` has no sibling but `+`. */
  ghost predicate Unshadowed<T>(t: Tree<T>, filter: Path) {
    forall i, k :: 0 <= i < |filter| && filter[..i] + [k] in t && IsWildcard(filter[i]) ==>
                     k == filter[i] || (filter[i] == HASH && k == PLUS)
  }

  /** An unshadowed filter is found by every topic it matches. */
  lemma {:induction false} UnshadowedIsReached<T>(t: Tree<T>, at: Path, rest: Path, p: Path)
    requires Closed(t) && WildcardFree(rest) && p in t && Unshadowed(t, p)
    requires at <= p && MatchesBelow(p[|at|..], rest)
    ensures EndsAt(Walk(t, at, rest), p)
    decreases |rest|
  {
    var f := p[|at|..];
    if f == [] {
      assert p == at;
    } else {
      var i := |at|;
      var child := at + [f[0]];
      assert p[..i] == at && p[i] == f[0] && child <= p;
      PrefixesArePresent(t, p, child);
      assert IsWildcard(f[0]) ==> p[..i] + [rest[0]] !in t;
      if f[0] == HASH {
        assert p == child;
      } else {
        assert f[0] == PLUS ==> p[..i] + [HASH] !in t;
        assert p[|child|..] == f[1..];
        UnshadowedIsReached(t, child, rest[1..], p);
      }
    }
  }

  /** A walk ends below the child it takes. */
  lemma WalkEndsBelowItsStep<T>(t: Tree<T>, at: Path, rest: Path, p: Path)
    requires WildcardFree(rest) && rest != [] && EndsAt(Walk(t, at, rest), p)
    ensures at + [Step(t, at, rest[0])] <= p
  {
    var child := at + [Step(t, at, rest[0])];
    if Step(t, at, rest[0]) != HASH {
      WalkIsSound(t, child, rest[1..]);
    }
  }

  /** A walk that ends at a node has taken each level of its path. */
  lemma {:induction false} WalkTakesEveryLevel<T>(t: Tree<T>, at: Path, rest: Path, p: Path, i: nat)
    requires WildcardFree(rest) && at <= p && |at| <= i < |p| && i - |at| < |rest| && EndsAt(Walk(t, at, rest), p)
    ensures Step(t, p[..i], rest[i - |at|]) == p[i]
    decreases |rest|
  {
    var child := at + [Step(t, at, rest[0])];
    WalkEndsBelowItsStep(t, at, rest, p);
    assert p[|at|] == child[|at|];
    if i == |at| {
      assert p[..i] == at;
    } else if Step(t, at, rest[0]) != HASH {
      WalkTakesEveryLevel(t, child, rest[1..], p, i);
    }
  }

  lemma {:induction false} PointwiseMatch(filter: Path, topic: Path)
    requires ProperFilter(filter) && |filter| == |topic|
    requires forall i :: 0 <= i < |filter| ==> IsWildcard(filter[i]) || filter[i] == topic[i]
    ensures MatchesBelow(filter, topic)
    decreases |filter|
  {
    if filter != [] && filter[0] != HASH {
      PointwiseMatch(filter[1..], topic[1..]);
    }
  }

  lemma {:induction false} OnlyProperFiltersMatch(filter: Path, topic: Path)
    requires MatchesBelow(filter, topic)
    ensures ProperFilter(filter)
    decreases |filter|
  {
    if filter != [] && filter[0] != HASH {
      OnlyProperFiltersMatch(filter[1..], topic[1..]);
      assert forall i :: 0 < i < |filter| ==> filter[i] == filter[1..][i - 1];
    }
  }

  /** A topic for the filter, with `name` at level i and "a" for every other wildcard. */
  function Witness(filter: Path, i: nat, name: string): (topic: Path)
    ensures |topic| == |filter|
  {
    seq(|filter|, j requires 0 <= j < |filter| => if j == i then name else if IsWildcard(filter[j]) then "a" else filter[j])
  }

  /** A filter with a preferred sibling at a wildcard level is missed by a topic it matches. */
  lemma ShadowedIsMissed<T>(t: Tree<T>, p: Path, i: nat, k: string) returns (topic: Path)
    requires ProperFilter(p) && i < |p| && IsWildcard(p[i])
    requires p[..i] + [k] in t && k != p[i] && !(p[i] == HASH && k == PLUS)
    ensures WildcardFree(topic) && MatchesBelow(p, topic) && !EndsAt(Walk(t, [], topic), p)
  {
    var name := if k == HASH then "a" else k;
    topic := Witness(p, i, name);
    PointwiseMatch(p, topic);
    if EndsAt(Walk(t, [], topic), p) {
      WalkTakesEveryLevel(t, [], topic, p, i);
      assert false;
    }
  }

  /** A node is found by every topic that its path matches, `#` covering at least one level, exactly
      when its path is unshadowed. */
  lemma FilterIsReachedIff<T>(t: Tree<T>, p: Path)
    requires Closed(t) && p in t && ProperFilter(p)
    ensures Unshadowed(t, p) <==>
              forall topic :: WildcardFree(topic) && MatchesBelow(p, topic) ==> EndsAt(Walk(t, [], topic), p)
  {
    if Unshadowed(t, p) {
      forall topic | WildcardFree(topic) && MatchesBelow(p, topic) ensures EndsAt(Walk(t, [], topic), p) {
        assert p[0..] == p;
        UnshadowedIsReached(t, [], topic, p);
      }
    } else {
      var i, k :| 0 <= i < |p| && p[..i] + [k] in t && IsWildcard(p[i]) && k != p[i] && !(p[i] == HASH && k == PLUS);
      var topic := ShadowedIsMissed(t, p, i, k);
    }
  }

  // ---------------------------------------------------------------- the standard's own reading

  /** The filter is unshadowed, and it does not end in a `#` below another level. */
  ghost predicate InView<T>(t: Tree<T>, filter: Path) {
    Unshadowed(t, filter) && (|filter| <= 1 || filter[|filter| - 1] != HASH)
  }

  lemma {:induction false} MatchesDownToItsDepth(filter: Path, topic: Path)
    requires MatchesBelow(filter, topic)
    ensures |filter| <= |topic|
    decreases |filter|
  {
    if filter != [] && filter[0] != HASH {
      MatchesDownToItsDepth(filter[1..], topic[1..]);
    }
  }

  /** The walk never ends at a trailing `#` for the topic of its parent level. */
  lemma ParentTopicIsMissed<T>(t: Tree<T>, p: Path) returns (topic: Path)
    requires ProperFilter(p) && |p| > 1 && p[|p| - 1] == HASH
    ensures topic != [] && WildcardFree(topic) && Matches(p, topic) && !EndsAt(Walk(t, [], topic), p)
  {
    topic := Witness(Parent(p), |p|, "a");
    PointwiseMatch(Parent(p), topic);
    ReadingsDifferOnlyAtTheParent(p, topic);
    LookupIsSound(t, topic);
    if EndsAt(Walk(t, [], topic), p) {
      MatchesDownToItsDepth(p, topic);
      assert false;
    }
  }

  /** A filter is found by every topic that it matches under section 4.7.1 exactly when it is in view. */
  lemma FilterIsFoundIff<T>(t: Tree<T>, p: Path)
    requires Closed(t) && p in t && ProperFilter(p)
    ensures InView(t, p) <==>
              forall topic :: topic != [] && WildcardFree(topic) && Matches(p, topic) ==> EndsAt(Walk(t, [], topic), p)
  {
    FilterIsReachedIff(t, p);
    if InView(t, p) {
      forall topic | topic != [] && WildcardFree(topic) && Matches(p, topic) ensures EndsAt(Walk(t, [], topic), p) {
        ReadingsDifferOnlyAtTheParent(p, topic);
      }
    } else if Unshadowed(t, p) {
      var topic := ParentTopicIsMissed(t, p);
    } else {
      var topic :| WildcardFree(topic) && MatchesBelow(p, topic) && !EndsAt(Walk(t, [], topic), p);
      MatchesDownToItsDepth(p, topic);
      ReadingsDifferOnlyAtTheParent(p, topic);
    }
  }

  function Store<T>(t: Tree<T>, p: Path, value: Option<T>): Tree<T> { t[p := value] }

  /** A topic gets whatever is stored at a node exactly when its walk ends there. */
  lemma ValueIsReturnedIff<T(!new)>(t: Tree<T>, p: Path, topic: Path)
    requires p in t && t[p].Some?
    ensures EndsAt(Walk(t, [], topic), p) <==> forall v :: Lookup(Store(t, p, v), topic) == v
  {
    forall v ensures Walk(Store(t, p, v), [], topic) == Walk(t, [], topic) {
      assert Store(t, p, v).Keys == t.Keys;
      WalkIgnoresValues(Store(t, p, v), t, [], topic);
    }
    if !EndsAt(Walk(t, [], topic), p) {
      assert Lookup(Store(t, p, None), topic) == Lookup(Store(t, p, t[p]), topic);
    }
  }

  /** Whatever callback is stored for a filter, every topic that the filter matches under section
      4.7.1 gets that callback, exactly when the filter is in view. */
  lemma CallbackIsFoundIff<T(!new)>(t: Tree<T>, p: Path)
    requires Closed(t) && p in t && t[p].Some? && ProperFilter(p)
    ensures InView(t, p) <==>
              forall topic, v :: topic != [] && WildcardFree(topic) && Matches(p, topic) ==> Lookup(Store(t, p, v), topic) == v
  {
    FilterIsFoundIff(t, p);
    forall topic ensures EndsAt(Walk(t, [], topic), p) <==> forall v :: Lookup(Store(t, p, v), topic) == v {
      ValueIsReturnedIff(t, p, topic);
    }
  }

  ghost predicate StoredInView<T>(t: Tree<T>) {
    forall p :: p in t && t[p].Some? && ProperFilter(p) ==> InView(t, p)
  }

  /** Every stored filter is found by every topic it matches under section 4.7.1, exactly when every
      stored filter is in view. */
  lemma StoredFiltersAreFoundIff<T>(t: Tree<T>)
    requires Closed(t)
    ensures StoredInView(t) <==>
              forall topic, p :: topic != [] && WildcardFree(topic) && p in t && t[p].Some? && Matches(p, topic) ==>
                EndsAt(Walk(t, [], topic), p)
  {
    if StoredInView(t) {
      forall topic, p | topic != [] && WildcardFree(topic) && p in t && t[p].Some? && Matches(p, topic)
        ensures EndsAt(Walk(t, [], topic), p)
      {
        OnlyProperFiltersMatchTheStandard(p, topic);
        FilterIsFoundIff(t, p);
      }
    } else {
      var p :| p in t && t[p].Some? && ProperFilter(p) && !InView(t, p);
      FilterIsFoundIff(t, p);
    }
  }

  /** Then a lookup finds a value exactly when a stored filter matches the topic under section 4.7.1,
      and it is that filter's value. */
  lemma LookupMeetsTheStandard<T>(t: Tree<T>, topic: Path)
    requires Closed(t) && StoredInView(t) && WildcardFree(topic) && topic != []
    ensures Lookup(t, topic).Some? <==> exists p :: p in t && t[p].Some? && Matches(p, topic)
    ensures forall p :: p in t && t[p].Some? && Matches(p, topic) ==> Lookup(t, topic) == t[p]
  {
    StoredFiltersAreFoundIff(t);
    LookupIsSound(t, topic);
    if Lookup(t, topic).Some? {
      var p := Walk(t, [], topic).path;
      assert p in t && t[p].Some? && Matches(p, topic);
    }
  }

  lemma {:induction false} OnlyProperFiltersMatchTheStandard(filter: Path, topic: Path)
    requires Matches(filter, topic)
    ensures ProperFilter(filter)
    decreases |filter|
  {
    if filter != [] && filter[0] != HASH {
      OnlyProperFiltersMatchTheStandard(filter[1..], topic[1..]);
      assert forall i :: 0 < i < |filter| ==> filter[i] == filter[1..][i - 1];
    }
  }

  /** `a/#` is alone in the trie and matches `a`, and yet `a` finds nothing. */
  lemma ParentLevelIsMissed()
    ensures var t: Tree<int> := map[[] := None, ["a"] := None, ["a", "#"] := Some(1)];
            Closed(t) && Matches(["a", "#"], ["a"]) && Lookup(t, ["a"]) == None
  {
    var t: Tree<int> := map[[] := None, ["a"] := None, ["a", "#"] := Some(1)];
    assert Parent(["a", "#"]) == ["a"] && Parent(["a"]) == [];
    assert ["a", "#"][1..] == ["#"];
    assert [] + ["a"] == ["a"] && ["a"][1..] == [];
    assert Walk(t, [], ["a"]) == Walk(t, [] + ["a"], []) == Reached(["a"]);
  }

  // ---------------------------------------------------------------- lookups as the walk reads filters

  /** Every stored filter is unshadowed. */
  ghost predicate StoredUnshadowed<T>(t: Tree<T>) {
    forall p :: p in t && t[p].Some? && ProperFilter(p) ==> Unshadowed(t, p)
  }

  /** Where every stored filter is unshadowed, a lookup finds a value exactly when a stored filter
      matches the topic, and it is that filter's value. */
  lemma LookupFindsStoredFilters<T>(t: Tree<T>, topic: Path)
    requires Closed(t) && StoredUnshadowed(t) && WildcardFree(topic)
    ensures Lookup(t, topic).Some? <==> exists p :: p in t && t[p].Some? && MatchesBelow(p, topic)
    ensures forall p :: p in t && t[p].Some? && MatchesBelow(p, topic) ==> Lookup(t, topic) == t[p]
  {
    forall p | p in t && t[p].Some? && MatchesBelow(p, topic) ensures EndsAt(Walk(t, [], topic), p) {
      OnlyProperFiltersMatch(p, topic);
      FilterIsReachedIff(t, p);
    }
    LookupIsSound(t, topic);
    if Lookup(t, topic).Some? {
      var p := Walk(t, [], topic).path;
      assert p in t && t[p].Some? && MatchesBelow(p, topic);
    }
  }

  /** A wildcard child is an only child, except below a `#`, which no lookup enters. */
  ghost predicate WildcardsStandAlone<T>(t: Tree<T>) {
    forall at: Path, w: string, k: string ::
      HASH !in at && at + [w] in t && at + [k] in t && (w == HASH || w == PLUS) ==> k == w
  }

  /** With lone wildcards nothing is shadowed. */
  lemma LoneWildcardsShadowNothing<T>(t: Tree<T>, p: Path)
    requires Closed(t) && WildcardsStandAlone(t) && p in t && ProperFilter(p)
    ensures Unshadowed(t, p)
  {
    forall i, k | 0 <= i < |p| && p[..i] + [k] in t && IsWildcard(p[i]) ensures k == p[i] {
      assert p[..i] + [p[i]] <= p;
      PrefixesArePresent(t, p, p[..i] + [p[i]]);
      assert HASH !in p[..i];
    }
  }

  /** Siblings of which one is a wildcard match a topic in common. */
  lemma SiblingsShareATopic(at: Path, w: string, k: string) returns (topic: Path)
    requires HASH !in at && IsWildcard(w) && k != w
    ensures WildcardFree(topic) && MatchesBelow(at + [w], topic) && MatchesBelow(at + [k], topic)
  {
    topic := Witness(at + [w], |at|, if IsWildcard(k) then "a" else k);
    PointwiseMatch(at + [w], topic);
    PointwiseMatch(at + [k], topic);
  }

  /** Lone wildcards are exactly what it takes for nodes without a value too: the walk ends at every
      node that matches the topic, for every topic, if and only if wildcards stand alone. */
  lemma WalkIsCompleteIff<T>(t: Tree<T>)
    requires Closed(t)
    ensures WildcardsStandAlone(t) <==>
              forall topic, p :: WildcardFree(topic) && p in t && MatchesBelow(p, topic) ==> EndsAt(Walk(t, [], topic), p)
  {
    if WildcardsStandAlone(t) {
      forall topic, p | WildcardFree(topic) && p in t && MatchesBelow(p, topic) ensures EndsAt(Walk(t, [], topic), p) {
        OnlyProperFiltersMatch(p, topic);
        LoneWildcardsShadowNothing(t, p);
        FilterIsReachedIff(t, p);
      }
    } else {
      var at: Path, w: string, k: string :|
        HASH !in at && at + [w] in t && at + [k] in t && (w == HASH || w == PLUS) && k != w;
      var topic := SiblingsShareATopic(at, w, k);
      assert (at + [w])[|at|] != (at + [k])[|at|];
    }
  }

  /** In a tree with lone wildcards a lookup finds a value exactly when a stored filter matches the
      topic, and it is that filter's value. */
  lemma LookupIsComplete<T>(t: Tree<T>, topic: Path)
    requires Closed(t) && WildcardsStandAlone(t) && WildcardFree(topic)
    ensures Lookup(t, topic).Some? <==> exists p :: p in t && t[p].Some? && MatchesBelow(p, topic)
    ensures forall p :: p in t && MatchesBelow(p, topic) ==> Lookup(t, topic) == t[p]
  {
    WalkIsCompleteIff(t);
    LookupIsSound(t, topic);
    if Lookup(t, topic).Some? {
      var p := Walk(t, [], topic).path;
      assert p in t && t[p].Some? && MatchesBelow(p, topic);
    }
  }

  /** Without that condition a stored filter can be missed: `+/b` is not tried once `a` exists. */
  lemma SiblingsHideAFilter()
    ensures var t: Tree<int> := map[[] := None, ["+"] := None, ["+", "b"] := Some(1), ["a"] := None];
            Closed(t) && MatchesBelow(["+", "b"], ["a", "b"]) && Lookup(t, ["a", "b"]) == None
  {
    var t: Tree<int> := map[[] := None, ["+"] := None, ["+", "b"] := Some(1), ["a"] := None];
    assert Parent(["+", "b"]) == ["+"] && Parent(["+"]) == [] && Parent(["a"]) == [];
    assert [] + ["a"] == ["a"] && ["a", "b"][1..] == ["b"];
    assert ["a"] + ["b"] !in t && ["a"] + [HASH] !in t && ["a"] + [PLUS] !in t;
    assert Walk(t, ["a"], ["b"]) == Nowhere;
    assert Walk(t, [], ["a", "b"]) == Walk(t, [] + ["a"], ["b"]);
    assert ["+", "b"][1..] == ["b"] && ["b"][1..] == [];
    assert MatchesBelow(["b"], ["b"]);
  }

  // ---------------------------------------------------------------- find after insert

  /** An insert's walk only adds nodes strictly below where it stands. */
  lemma {:induction false} GrowTopicAddsBelow<T>(t: Tree<T>, at: Path, rest: Path, p: Path)
    ensures var (r, q) := GrowTopic(t, at, rest);
            && at <= q && (at in t ==> q in r)
            && (p in t ==> p in r && r[p] == t[p])
            && (p in r && p !in t ==> at <= p && p != at && r[p] == None)
    decreases |rest|
  {
    if rest != [] {
      if at + [rest[0]] in t {
        GrowTopicAddsBelow(t, at + [rest[0]], rest[1..], p);
      } else if at + [HASH] in t {
      } else if at + [PLUS] in t {
        GrowTopicAddsBelow(t, at + [PLUS], rest[1..], p);
      } else {
        GrowTopicAddsBelow(t[at + [rest[0]] := None], at + [rest[0]], rest[1..], p);
      }
    }
  }

  /** Walking again after an insert ends at the node the insert ended at. */
  lemma {:induction false} WalkAgain<T>(t: Tree<T>, at: Path, rest: Path)
    ensures var (r, q) := GrowTopic(t, at, rest); EndsAt(Walk(r, at, rest), q)
    decreases |rest|
  {
    if rest != [] {
      var exact := at + [rest[0]];
      if exact in t {
        GrowTopicAddsBelow(t, exact, rest[1..], exact);
        WalkAgain(t, exact, rest[1..]);
      } else if at + [HASH] in t {
      } else if at + [PLUS] in t {
        GrowTopicAddsBelow(t, at + [PLUS], rest[1..], exact);
        GrowTopicAddsBelow(t, at + [PLUS], rest[1..], at + [HASH]);
        GrowTopicAddsBelow(t, at + [PLUS], rest[1..], at + [PLUS]);
        WalkAgain(t, at + [PLUS], rest[1..]);
      } else {
        GrowTopicAddsBelow(t[exact := None], exact, rest[1..], exact);
        WalkAgain(t[exact := None], exact, rest[1..]);
      }
    }
  }

  /** The walk looks only at which nodes exist. */
  lemma {:induction false} WalkIgnoresValues<T>(t: Tree<T>, u: Tree<T>, at: Path, rest: Path)
    requires t.Keys == u.Keys
    ensures Walk(t, at, rest) == Walk(u, at, rest)
    decreases |rest|
  {
    if rest != [] {
      assert forall p :: p in t <==> p in u;
      WalkIgnoresValues(t, u, at + [rest[0]], rest[1..]);
      WalkIgnoresValues(t, u, at + [PLUS], rest[1..]);
    }
  }

  /** In any trie, find right after insert of the same key returns the inserted value. */
  lemma LookupAfterSubscribe<T>(t: Tree<T>, filter: Path, value: Option<T>)
    requires Closed(t)
    ensures Lookup(Subscribe(t, filter, value), filter) == value
  {
    var (r, q) := GrowTopic(t, [], filter);
    GrowTopicAddsBelow(t, [], filter, q);
    WalkAgain(t, [], filter);
    assert r[q := value].Keys == r.Keys;
    WalkIgnoresValues(r[q := value], r, [], filter);
  }

  lemma SubscribeStaysClosed<T>(t: Tree<T>, at: Path, rest: Path)
    requires Closed(t) && at in t
    ensures Closed(GrowTopic(t, at, rest).0) && GrowTopic(t, at, rest).1 in GrowTopic(t, at, rest).0
    decreases |rest|
  {
    if rest != [] {
      if at + [rest[0]] in t {
        SubscribeStaysClosed(t, at + [rest[0]], rest[1..]);
      } else if at + [HASH] in t {
      } else if at + [PLUS] in t {
        SubscribeStaysClosed(t, at + [PLUS], rest[1..]);
      } else {
        var u := t[at + [rest[0]] := None];
        assert Parent(at + [rest[0]]) == at;
        assert Closed(u);
        SubscribeStaysClosed(u, at + [rest[0]], rest[1..]);
      }
    }
  }

  lemma CutStaysClosed<T>(t: Tree<T>, q: Path)
    requires Closed(t) && q != []
    ensures Closed(Cut(t, q))
  {
    forall p | p in Cut(t, q) && p != [] ensures Parent(p) in Cut(t, q) {
      assert q <= Parent(p) ==> q <= p;
    }
  }

  function ApplyTopic<T>(t: Tree<T>, op: Op<T>, delimiter: string): Tree<T> {
    match op
    case Put(filter, callback) => Subscribe(t, Split(filter, delimiter), callback)
    case Drop(filter) => Unsubscribe(t, Split(filter, delimiter))
  }

  function TopicNext<T>(delimiter: string): (Tree<T>, Op<T>) -> Option<Tree<T>> {
    (t: Tree<T>, op: Op<T>) => Some(ApplyTopic(t, op, delimiter))
  }

  /** After any subscribes and unsubscribes, what a topic finds is a filter that matches it, and the
      answer is complete for all topics at once exactly when wildcards stand alone. */
  lemma {:induction false} TopicTrieAfterAnyRun<T>(t: Tree<T>, ops: seq<Op<T>>, delimiter: string, topic: string)
    requires Closed(t)
    ensures var r := Run(TopicNext(delimiter), t, ops);
            && r.Some? && Closed(r.value)
            && (WildcardFree(Split(topic, delimiter)) ==>
                  var a := Walk(r.value, [], Split(topic, delimiter));
                  !a.Nowhere? ==> Matches(a.path, Split(topic, delimiter)))
            && (WildcardsStandAlone(r.value) <==>
                  forall q, p :: WildcardFree(q) && p in r.value && MatchesBelow(p, q) ==> EndsAt(Walk(r.value, [], q), p))
    decreases |ops|
  {
    if ops == [] {
      if WildcardFree(Split(topic, delimiter)) {
        LookupIsSound(t, Split(topic, delimiter));
      }
      WalkIsCompleteIff(t);
    } else {
      var parts := Split(ops[0].key, delimiter);
      SubscribeStaysClosed(t, [], parts);
      var found := Walk(t, [], parts);
      if found.Reached? && found.path != [] {
        CutStaysClosed(t, found.path);
      }
      var u := ApplyTopic(t, ops[0], delimiter);
      TopicTrieAfterAnyRun(u, ops[1..], delimiter, topic);
    }
  }

  // ---------------------------------------------------------------- where a subscription is stored

  /** No `#` or `+` stands beside the first level of the filter, from level n on, that is missing. */
  ghost predicate UnblockedFrom<T>(t: Tree<T>, filter: Path, n: nat) {
    forall i :: n <= i < |filter| && filter[..i] in t && filter[..i + 1] !in t ==>
                  filter[..i] + [HASH] !in t && filter[..i] + [PLUS] !in t
  }

  /** Below a missing node everything is missing. */
  lemma MissingBelow<T>(t: Tree<T>, q: Path, p: Path)
    requires Closed(t) && q !in t && q <= p
    ensures p !in t
  {
    if p in t {
      PrefixesArePresent(t, p, q);
      assert false;
    }
  }

  /** Growing to a prefix first changes nothing. */
  lemma {:induction false} GrowInTwo<T>(t: Tree<T>, q: Path, p: Path)
    requires q != [] && q !in t && Parent(q) in t && q <= p
    requires forall k :: |q| <= k <= |p| ==> p[..k] !in t
    ensures Grow(t, p) == Grow(t[q := None], p)
    decreases |p|
  {
    assert p[..|p|] == p;
    if p != q {
      assert forall k :: |q| <= k <= |Parent(p)| ==> Parent(p)[..k] == p[..k];
      GrowInTwo(t, q, Parent(p));
    }
  }

  /** An insert that nothing blocks creates exactly the missing nodes of its own path. */
  lemma {:induction false} UnblockedGrows<T>(t: Tree<T>, at: Path, rest: Path, p: Path)
    requires Closed(t) && at in t && p == at + rest && UnblockedFrom(t, p, |at|)
    ensures GrowTopic(t, at, rest) == (Grow(t, p), p)
    decreases |rest|
  {
    if rest == [] {
      assert p == at;
    } else {
      var child := at + [rest[0]];
      assert p[..|at|] == at && p[..|at| + 1] == child && child + rest[1..] == p && Parent(child) == at;
      if child in t {
        UnblockedGrows(t, child, rest[1..], p);
      } else {
        var u := t[child := None];
        forall k | |child| <= k <= |p| ensures p[..k] !in t {
          MissingBelow(t, child, p[..k]);
        }
        MissingBelow(t, child, child + [HASH]);
        MissingBelow(t, child, child + [PLUS]);
        UnblockedGrows(u, child, rest[1..], p);
        GrowInTwo(t, child, p);
      }
    }
  }

  /** An insert that is blocked ends elsewhere and does not create its own path. */
  lemma {:induction false} BlockedStrays<T>(t: Tree<T>, at: Path, rest: Path, p: Path)
    requires Closed(t) && at in t && p == at + rest && !UnblockedFrom(t, p, |at|)
    ensures p !in GrowTopic(t, at, rest).0 && GrowTopic(t, at, rest).1 != p
    decreases |rest|
  {
    var i :| |at| <= i < |p| && p[..i] in t && p[..i + 1] !in t && (p[..i] + [HASH] in t || p[..i] + [PLUS] in t);
    var child := at + [rest[0]];
    assert p[..|at|] == at && child + rest[1..] == p && child <= p;
    if child in t {
      assert i >= |child| by { assert p[..|at| + 1] == child; }
      BlockedStrays(t, child, rest[1..], p);
    } else {
      if i > |at| {
        MissingBelow(t, child, p[..i]);
        assert false;
      }
      MissingBelow(t, child, p);
      assert p[|at|] == rest[0];
      if at + [HASH] in t {
        assert (at + [HASH])[|at|] != p[|at|];
      } else {
        assert (at + [PLUS])[|at|] != p[|at|];
        GrowTopicAddsBelow(t, at + [PLUS], rest[1..], p);
      }
    }
  }

  /** A subscription is stored at its own filter exactly when no wildcard stands beside the filter's
      first missing level; then it is the insert of the plain trie, and otherwise it is not. */
  lemma SubscribeIsInsertIff<T>(t: Tree<T>, filter: Path, value: Option<T>)
    requires Closed(t)
    ensures GrowTopic(t, [], filter).1 == filter <==> UnblockedFrom(t, filter, 0)
    ensures Subscribe(t, filter, value) == Insert(t, filter, value) <==> UnblockedFrom(t, filter, 0)
  {
    assert [] + filter == filter;
    if UnblockedFrom(t, filter, 0) {
      UnblockedGrows(t, [], filter, filter);
    } else {
      BlockedStrays(t, [], filter, filter);
      assert filter !in Subscribe(t, filter, value);
      assert filter in Insert(t, filter, value);
    }
  }

  /** Wherever it is stored, a subscription changes the value of that path and of no other. */
  lemma SubscribeChangesOnePath<T>(t: Tree<T>, filter: Path, value: Option<T>, p: Path)
    requires Closed(t)
    ensures At(Subscribe(t, filter, value), p) == if p == GrowTopic(t, [], filter).1 then value else At(t, p)
  {
    GrowTopicAddsBelow(t, [], filter, p);
  }

  /** A filter stored at itself and in view afterwards answers every topic it matches under section 4.7.1. */
  lemma SubscriptionIsFound<T>(t: Tree<T>, filter: Path, value: Option<T>, topic: Path)
    requires Closed(t) && ProperFilter(filter) && UnblockedFrom(t, filter, 0)
    requires topic != [] && WildcardFree(topic) && Matches(filter, topic)
    ensures InView(Subscribe(t, filter, value), filter) ==> Lookup(Subscribe(t, filter, value), topic) == value
  {
    var r := Subscribe(t, filter, value);
    SubscribeIsInsertIff(t, filter, value);
    InsertMeaning(t, filter, value, filter);
    FilterIsFoundIff(r, filter);
  }

  /** The first subscription is found by every topic its filter matches, `#` covering at least one level. */
  lemma FirstSubscriptionIsFound<T>(filter: Path, value: Option<T>, topic: Path)
    requires WildcardFree(topic) && MatchesBelow(filter, topic)
    ensures Lookup(Subscribe(Empty(), filter, value), topic) == value
  {
    var t: Tree<T> := Empty();
    var r := Subscribe(t, filter, value);
    SubscribeIsInsertIff(t, filter, value);
    InsertMeaning(t, filter, value, filter);
    forall i, k | 0 <= i < |filter| && filter[..i] + [k] in r ensures k == filter[i] {
      GrowMeaning(t, filter, filter[..i] + [k]);
      assert (filter[..i] + [k])[i] == k;
    }
    assert filter[0..] == filter;
    UnshadowedIsReached(r, [], topic, filter);
  }

  // ---------------------------------------------------------------- no wildcards: the plain trie

  ghost predicate NoWildcards<T>(t: Tree<T>) { forall p :: p in t ==> WildcardFree(p) }

  lemma {:induction false} WalkWithoutWildcards<T>(t: Tree<T>, at: Path, rest: Path)
    requires Closed(t) && NoWildcards(t) && at in t
    ensures Walk(t, at, rest) == if at + rest in t then Reached(at + rest) else Nowhere
    decreases |rest|
  {
    assert HASH in at + [HASH] && PLUS in at + [PLUS];
    if rest == [] {
      assert at + rest == at;
    } else {
      assert at + [rest[0]] + rest[1..] == at + rest;
      if at + [rest[0]] in t {
        WalkWithoutWildcards(t, at + [rest[0]], rest[1..]);
      } else if at + rest in t {
        PrefixesArePresent(t, at + rest, at + [rest[0]]);
      }
    }
  }

  /** While no key has a wildcard level, the topic trie is the plain trie. */
  lemma TopicTrieIsPlainWithoutWildcards<T>(t: Tree<T>, parts: Path, value: Option<T>)
    requires Closed(t) && NoWildcards(t) && WildcardFree(parts)
    ensures Lookup(t, parts) == At(t, parts)
    ensures Subscribe(t, parts, value) == Insert(t, parts, value)
    ensures Unsubscribe(t, parts) == Remove(t, parts)
  {
    assert [] + parts == parts;
    WalkWithoutWildcards(t, [], parts);
    assert forall p: Path :: HASH in p + [HASH] && PLUS in p + [PLUS];
    SubscribeIsInsertIff(t, parts, value);
  }

  lemma PlainStepKeepsNoWildcards<T>(t: Tree<T>, parts: Path, value: Option<T>)
    requires Closed(t) && NoWildcards(t) && WildcardFree(parts)
    ensures NoWildcards(Insert(t, parts, value)) && NoWildcards(Remove(t, parts))
  {
    forall p | p in Insert(t, parts, value) ensures WildcardFree(p) {
      GrowMeaning(t, parts, p);
    }
  }

  ghost predicate WildcardFreeKeys<T>(ops: seq<Op<T>>, delimiter: string) {
    forall i :: 0 <= i < |ops| ==> WildcardFree(Split(ops[i].key, delimiter))
  }

  /** On operations whose keys have no wildcard level the two tries stay equal. */
  lemma {:induction false} TopicRunsArePlain<T>(s: Paired<T>, ops: seq<Op<T>>, delimiter: string)
    requires Closed(s.tree) && NoWildcards(s.tree) && WildcardFreeKeys(ops, delimiter)
    ensures var plain, topic := Run(PlainNext(delimiter), s, ops), Run(TopicNext(delimiter), s.tree, ops);
            plain.Some? && topic == Some(plain.value.tree) && Closed(plain.value.tree) && NoWildcards(plain.value.tree)
    decreases |ops|
  {
    if ops != [] {
      var op := ops[0];
      var parts := Split(op.key, delimiter);
      var value := if op.Put? then op.value else None;
      TopicTrieIsPlainWithoutWildcards(s.tree, parts, value);
      PlainStepKeepsNoWildcards(s.tree, parts, value);
      InsertMeaning(s.tree, parts, value, []);
      RemoveMeaning(s.tree, parts, []);
      var t := Apply(s, op, delimiter);
      assert ApplyTopic(s.tree, op, delimiter) == t.tree;
      TopicRunsArePlain(t, ops[1..], delimiter);
    }
  }

  /** After any subscribes and unsubscribes without wildcards, a topic without wildcards finds what
      the finite map on strings holds for it. */
  lemma TopicTrieRefinesMapWithoutWildcards<T>(ops: seq<Op<T>>, delimiter: string, key: string)
    requires WildcardFreeKeys(ops, delimiter) && WildcardFree(Split(key, delimiter))
    ensures var s := Paired(Empty<T>(), map[]);
            var plain, topic := Run(PlainNext(delimiter), s, ops), Run(TopicNext(delimiter), Empty<T>(), ops);
            && plain.Some? && topic == Some(plain.value.tree)
            && Lookup(topic.value, Split(key, delimiter)) ==
               (if key in plain.value.keys then Some(plain.value.keys[key]) else None)
  {
    var s := Paired(Empty<T>(), map[]);
    TopicRunsArePlain(s, ops, delimiter);
    TrieRefinesMap(s, ops, delimiter, key);
    TopicTrieIsPlainWithoutWildcards(Run(PlainNext(delimiter), s, ops).value.tree, Split(key, delimiter), None);
  }

  // ---------------------------------------------------------------- what an unsubscribe deletes

  /** A stored path is walked part by part, whatever wildcards there are. */
  lemma {:induction false} PresentPathIsReached<T>(t: Tree<T>, at: Path, rest: Path)
    requires Closed(t) && at + rest in t
    ensures Walk(t, at, rest) == Reached(at + rest)
    decreases |rest|
  {
    if rest == [] {
      assert at + rest == at;
    } else {
      var child := at + [rest[0]];
      assert child + rest[1..] == at + rest;
      PrefixesArePresent(t, at + rest, child);
      PresentPathIsReached(t, child, rest[1..]);
    }
  }

  /** A walk never leaves the tree. */
  lemma {:induction false} WalkStaysInside<T>(t: Tree<T>, at: Path, rest: Path)
    requires at in t
    ensures var a := Walk(t, at, rest); !a.Nowhere? ==> a.path in t
    decreases |rest|
  {
    if rest != [] && at + [rest[0]] in t {
      WalkStaysInside(t, at + [rest[0]], rest[1..]);
    } else if rest != [] && at + [HASH] !in t && at + [PLUS] in t {
      WalkStaysInside(t, at + [PLUS], rest[1..]);
    }
  }

  lemma UnsubscribeOfPresent<T>(t: Tree<T>, filter: Path)
    requires Closed(t) && filter in t
    ensures Unsubscribe(t, filter) == Remove(t, filter)
  {
    assert [] + filter == filter;
    PresentPathIsReached(t, [], filter);
  }

  /** An unsubscribe deletes exactly the paths that extend the one its walk reaches. That is what the
      filter itself names exactly when the filter has a node or its walk reaches none; otherwise
      another filter is cut off, with everything below. */
  lemma UnsubscribeIsRemoveIff<T>(t: Tree<T>, filter: Path)
    requires Closed(t)
    ensures var a := Walk(t, [], filter);
            forall p :: At(Unsubscribe(t, filter), p) ==
                        if a.Reached? && a.path != [] && a.path <= p then None else At(t, p)
    ensures Unsubscribe(t, filter) == Remove(t, filter) <==> filter in t || !Walk(t, [], filter).Reached?
  {
    if filter in t {
      UnsubscribeOfPresent(t, filter);
    } else {
      var a := Walk(t, [], filter);
      WalkStaysInside(t, [], filter);
      assert Remove(t, filter) == t;
      if a.Reached? {
        ReachedDepth(t, [], filter);
        assert a.path in t && a.path !in Unsubscribe(t, filter);
      }
    }
  }

  /** Where only `+` exists, unsubscribing `a` empties the trie. */
  lemma UnsubscribeCutsAnother()
    ensures var t: Tree<int> := map[[] := None, ["+"] := Some(1), ["+", "b"] := Some(2)];
            Closed(t) && Unsubscribe(t, ["a"]) == Empty() && Remove(t, ["a"]) == t
  {
    var t: Tree<int> := map[[] := None, ["+"] := Some(1), ["+", "b"] := Some(2)];
    assert Parent(["+", "b"]) == ["+"] && Parent(["+"]) == [];
    assert [] + ["a"] !in t && [] + [HASH] !in t && [] + [PLUS] == ["+"];
    assert ["a"][1..] == [];
    assert Walk(t, [], ["a"]) == Walk(t, [] + [PLUS], []) == Reached(["+"]);
    assert ["+"] <= ["+"] && ["+"] <= ["+", "b"];
  }

  /** A walk to its end goes down one level for each part. */
  lemma {:induction false} ReachedDepth<T>(t: Tree<T>, at: Path, rest: Path)
    ensures var a := Walk(t, at, rest); a.Reached? ==> |a.path| == |at| + |rest|
    decreases |rest|
  {
    if rest != [] {
      ReachedDepth(t, at + [rest[0]], rest[1..]);
      ReachedDepth(t, at + [PLUS], rest[1..]);
    }
  }
}
