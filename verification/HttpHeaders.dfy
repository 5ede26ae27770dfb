/** HTTP headers twice: a case-folded index (browser) and a flat list (native) of the same interface.

Names are compared with ASCII case ignored. The index is shown to answer like the list after any
sequence of operations, in whatever order its keys are enumerated.
*/
module HttpHeaders {
  import opened Runs

  datatype Header = Header(name: string, value: string)

  function LowerChar(c: char): char {
    if 'A' <= c <= 'Z' then (c as int + 32) as char else c
  }

  function Lower(s: string): string { seq(|s|, i requires 0 <= i < |s| => LowerChar(s[i])) }

  function Key(h: Header): string { Lower(h.name) }

  // ---------------------------------------------------------------- the flat list

  /** The headers of the list with this folded name, in list order. */
  function Select(l: seq<Header>, key: string): seq<Header> {
    if l == [] then []
    else if Key(l[0]) == key then [l[0]] + Select(l[1..], key)
    else Select(l[1..], key)
  }

  function Erase(l: seq<Header>, key: string): seq<Header> {
    if l == [] then []
    else if Key(l[0]) == key then Erase(l[1..], key)
    else [l[0]] + Erase(l[1..], key)
  }

  function Values(l: seq<Header>): seq<string> { seq(|l|, i requires 0 <= i < |l| => l[i].value) }

  lemma {:induction false} SelectConcat(a: seq<Header>, b: seq<Header>, key: string)
    ensures Select(a + b, key) == Select(a, key) + Select(b, key)
  {
    if a == [] {
      assert a + b == b;
    } else {
      assert (a + b)[1..] == a[1..] + b;
      SelectConcat(a[1..], b, key);
    }
  }

  lemma SelectOne(h: Header, key: string)
    ensures Select([h], key) == if Key(h) == key then [h] else []
  {
    assert [h][1..] == [];
  }

  lemma {:induction false} SelectErase(l: seq<Header>, erased: string, key: string)
    ensures Select(Erase(l, erased), key) == if key == erased then [] else Select(l, key)
  {
    if l != [] {
      SelectErase(l[1..], erased, key);
      if Key(l[0]) != erased {
        SelectConcat([l[0]], Erase(l[1..], erased), key);
        SelectOne(l[0], key);
      }
    }
  }

  /** A list is made of its selections: how often a header occurs shows in the one for its name. */
  lemma {:induction false} SelectCount(l: seq<Header>, h: Header)
    ensures multiset(Select(l, Key(h)))[h] == multiset(l)[h]
  {
    if l != [] {
      SelectCount(l[1..], h);
      assert l == [l[0]] + l[1..];
    }
  }

  /** Lists with the same selections are permutations of each other. */
  lemma SameSelectionsPermute(a: seq<Header>, b: seq<Header>)
    requires forall key :: Select(a, key) == Select(b, key)
    ensures multiset(a) == multiset(b) && |a| == |b|
  {
    forall h: Header ensures multiset(a)[h] == multiset(b)[h] {
      SelectCount(a, h);
      SelectCount(b, h);
      assert Select(a, Key(h)) == Select(b, Key(h));
    }
    assert multiset(a) == multiset(b);
    assert |multiset(a)| == |a| && |multiset(b)| == |b|;
  }

  // ---------------------------------------------------------------- names with case ignored

  /** The characters are equal, or the two cases of one ASCII letter. */
  predicate SameLetter(c: char, d: char) {
    || c == d
    || ('A' <= c <= 'Z' && 'a' <= d <= 'z' && c as int - 'A' as int == d as int - 'a' as int)
    || ('a' <= c <= 'z' && 'A' <= d <= 'Z' && c as int - 'a' as int == d as int - 'A' as int)
  }

  predicate SameName(a: string, b: string) {
    |a| == |b| && forall i :: 0 <= i < |a| ==> SameLetter(a[i], b[i])
  }

  /** Folding makes two names equal exactly when they differ in the case of ASCII letters only. */
  lemma FoldedEqualIff(a: string, b: string)
    ensures Lower(a) == Lower(b) <==> SameName(a, b)
  {
    if Lower(a) == Lower(b) {
      forall i | 0 <= i < |a| ensures SameLetter(a[i], b[i]) {
        assert Lower(a)[i] == Lower(b)[i];
      }
    }
    if SameName(a, b) {
      assert forall i :: 0 <= i < |a| ==> Lower(a)[i] == Lower(b)[i];
    }
  }

  /** The values that a reader of the list finds for a name, in list order. */
  function ValuesFor(l: seq<Header>, name: string): seq<string> {
    if l == [] then []
    else (if SameName(l[0].name, name) then [l[0].value] else []) + ValuesFor(l[1..], name)
  }

  lemma {:induction false} SelectedValues(l: seq<Header>, name: string)
    ensures Values(Select(l, Lower(name))) == ValuesFor(l, name)
  {
    if l != [] {
      SelectedValues(l[1..], name);
      FoldedEqualIff(l[0].name, name);
    }
  }

  /** Erasing takes every value of the name and leaves those of other names as they were. */
  lemma ErasedValues(l: seq<Header>, erased: string, name: string)
    ensures ValuesFor(Erase(l, Lower(erased)), name) == if SameName(erased, name) then [] else ValuesFor(l, name)
  {
    SelectErase(l, Lower(erased), Lower(name));
    SelectedValues(l, name);
    SelectedValues(Erase(l, Lower(erased)), name);
    FoldedEqualIff(erased, name);
  }

  // ---------------------------------------------------------------- the index

  type Index = map<string, seq<Header>>

  function Entries(m: Index, key: string): seq<Header> { if key in m then m[key] else [] }

  /** The index holds the selections of the list, and no empty ones. */
  ghost predicate Agrees(m: Index, l: seq<Header>) {
    forall key :: Entries(m, key) == Select(l, key) && (key in m ==> m[key] != [])
  }

  function AddTo(m: Index, h: Header): Index { m[Key(h) := Entries(m, Key(h)) + [h]] }

  function Build(l: seq<Header>): Index {
    if l == [] then map[] else AddTo(Build(l[..|l| - 1]), l[|l| - 1])
  }

  lemma AddAgrees(m: Index, l: seq<Header>, h: Header)
    requires Agrees(m, l)
    ensures Agrees(AddTo(m, h), l + [h])
  {
    forall key ensures Entries(AddTo(m, h), key) == Select(l + [h], key) {
      SelectConcat(l, [h], key);
      SelectOne(h, key);
      assert Entries(m, key) == Select(l, key);
    }
  }

  lemma {:induction false} BuildAgrees(l: seq<Header>)
    ensures Agrees(Build(l), l)
  {
    if l != [] {
      var front, last := l[..|l| - 1], l[|l| - 1];
      assert l == front + [last];
      BuildAgrees(front);
      AddAgrees(Build(front), front, last);
    }
  }

  /** A list determines its index. */
  lemma AgreeingIndexesAreEqual(m: Index, n: Index, l: seq<Header>)
    requires Agrees(m, l) && Agrees(n, l)
    ensures m == n
  {
    forall key ensures key in m <==> key in n {
      assert Entries(m, key) == Select(l, key) == Entries(n, key);
    }
    forall key | key in m ensures m[key] == n[key] {
      assert Entries(m, key) == Select(l, key) == Entries(n, key);
    }
  }

  /** Enumerating the index key by key gives a permutation of the list, and rebuilding from it gives
      the index back. */
  lemma FlattenMeaning(m: Index, l: seq<Header>, flat: seq<Header>)
    requires Agrees(m, l)
    requires forall key :: Select(flat, key) == Entries(m, key)
    ensures multiset(flat) == multiset(l) && |flat| == |l|
    ensures Build(flat) == m
  {
    forall key ensures Select(flat, key) == Select(l, key) {
      assert Entries(m, key) == Select(l, key);
    }
    SameSelectionsPermute(flat, l);
    BuildAgrees(flat);
    AgreeingIndexesAreEqual(Build(flat), m, flat);
  }

  // ---------------------------------------------------------------- every sequence of operations

  datatype Op = Add(h: Header) | Set(h: Header) | Remove(name: string) | Clear

  datatype Both = Both(index: Index, list: seq<Header>)

  function Apply(s: Both, op: Op): Both {
    match op
    case Add(h) => Both(AddTo(s.index, h), s.list + [h])
    case Set(h) => Both(s.index[Key(h) := [h]], Erase(s.list, Key(h)) + [h])
    case Remove(name) => Both(s.index - {Lower(name)}, Erase(s.list, Lower(name)))
    case Clear => Both(map[], [])
  }

  function Next(s: Both, op: Op): Option<Both> { Some(Apply(s, op)) }

  lemma StepAgrees(s: Both, op: Op)
    requires Agrees(s.index, s.list)
    ensures Agrees(Apply(s, op).index, Apply(s, op).list)
  {
    var t := Apply(s, op);
    if op.Add? {
      AddAgrees(s.index, s.list, op.h);
    } else {
      forall key ensures Entries(t.index, key) == Select(t.list, key) && (key in t.index ==> t.index[key] != []) {
        assert Entries(s.index, key) == Select(s.list, key);
        match op
        case Set(h) =>
          SelectConcat(Erase(s.list, Key(h)), [h], key);
          SelectErase(s.list, Key(h), key);
          SelectOne(h, key);
        case Remove(name) => SelectErase(s.list, Lower(name), key);
        case Clear =>
      }
    }
  }

  /** After any operations the index answers every name as the list does. */
  lemma IndexAnswersLikeTheList(ops: seq<Op>, name: string)
    ensures var r := Run(Next, Both(map[], []), ops);
            r.Some? ==>
              && Agrees(r.value.index, r.value.list)
              && Values(Entries(r.value.index, Lower(name))) == ValuesFor(r.value.list, name)
  {
    var inv := (s: Both) => Agrees(s.index, s.list);
    forall a, e | inv(a) && Next(a, e).Some? ensures inv(Next(a, e).value) {
      StepAgrees(a, e);
    }
    InvariantOfRuns(Next, inv, Both(map[], []), ops);
    var r := Run(Next, Both(map[], []), ops);
    if r.Some? {
      assert inv(r.value);
      assert Entries(r.value.index, Lower(name)) == Select(r.value.list, Lower(name));
      SelectedValues(r.value.list, name);
    }
  }

  // ---------------------------------------------------------------- lib/browser/http.ts

  /** Parts of a list: the headers whose folded names are among `keys`. */
  function Keep(l: seq<Header>, keys: set<string>): seq<Header> {
    if l == [] then []
    else if Key(l[0]) in keys then [l[0]] + Keep(l[1..], keys)
    else Keep(l[1..], keys)
  }

  lemma {:induction false} KeepOneMore(l: seq<Header>, keys: set<string>, key: string)
    requires key !in keys
    ensures |Keep(l, keys + {key})| == |Keep(l, keys)| + |Select(l, key)|
  {
    if l != [] {
      KeepOneMore(l[1..], keys, key);
    }
  }

  lemma {:induction false} KeepAll(l: seq<Header>, keys: set<string>)
    requires forall h :: h in l ==> Key(h) in keys
    ensures Keep(l, keys) == l
  {
    if l != [] {
      KeepAll(l[1..], keys);
    }
  }

  lemma {:induction false} SelectHas(l: seq<Header>, h: Header)
    requires h in l
    ensures Select(l, Key(h)) != []
  {
    if h != l[0] {
      SelectHas(l[1..], h);
    }
  }

  lemma KeepOneKey(m: Index, l: seq<Header>, done: set<string>, key: string)
    requires Agrees(m, l) && key in m && key !in done
    ensures |Keep(l, done + {key})| == |Keep(l, done)| + |m[key]|
  {
    assert Entries(m, key) == Select(l, key);
    KeepOneMore(l, done, key);
  }

  lemma KeysCoverTheList(m: Index, l: seq<Header>)
    requires Agrees(m, l)
    ensures forall h :: h in l ==> Key(h) in m.Keys
  {
    forall h | h in l ensures Key(h) in m.Keys {
      SelectHas(l, h);
      assert Entries(m, Key(h)) == Select(l, Key(h));
    }
  }

  /** The browser's class. `list` is the flat list it stands for. */
  class BrowserHeaders {
    var headers: Index
    ghost var list: seq<Header>

    ghost predicate Valid()
      reads this
    {
      Agrees(headers, list)
    }

    constructor (initial: seq<Header>)
      ensures Valid() && list == initial
    {
      headers, list := map[], [];
      new;
      var i := 0;
      while i < |initial|
        invariant 0 <= i <= |initial|
        invariant Valid() && list == initial[..i]
      {
        Add(initial[i].name, initial[i].value);
        i := i + 1;
      }
    }

    method Add(name: string, value: string)
      requires Valid()
      modifies this
      ensures Valid() && list == old(list) + [Header(name, value)]
    {
      var h := Header(name, value);
      AddAgrees(headers, list, h);
      list := list + [h];
      if Lower(name) in headers {
        headers := headers[Lower(name) := headers[Lower(name)] + [h]];
      } else {
        headers := headers[Lower(name) := [h]];
        assert [] + [h] == [h];
      }
    }

    method Set(name: string, value: string)
      requires Valid()
      modifies this
      ensures Valid() && list == Erase(old(list), Lower(name)) + [Header(name, value)]
    {
      var h := Header(name, value);
      StepAgrees(Both(headers, list), Op.Set(h));
      headers := headers[Lower(name) := [h]];
      list := Erase(list, Lower(name)) + [h];
    }

    method Remove(name: string)
      requires Valid()
      modifies this
      ensures Valid() && list == Erase(old(list), Lower(name))
    {
      StepAgrees(Both(headers, list), Op.Remove(name));
      headers := headers - {Lower(name)};
      list := Erase(list, Lower(name));
    }

    method Clear()
      requires Valid()
      modifies this
      ensures Valid() && list == []
    {
      headers, list := map[], [];
    }

    method GetValues(name: string) returns (values: seq<string>)
      requires Valid()
      ensures values == ValuesFor(list, name)
    {
      SelectedValues(list, name);
      assert Entries(headers, Lower(name)) == Select(list, Lower(name));
      var entries := if Lower(name) in headers then headers[Lower(name)] else [];
      values := [];
      for i := 0 to |entries|
        invariant values == Values(entries[..i])
      {
        values := values + [entries[i].value];
        assert entries[..i + 1] == entries[..i] + [entries[i]];
      }
      assert entries[..|entries|] == entries;
    }

    /** The first value for the name; an empty one counts as absent. */
    method Get(name: string, default: string) returns (value: string)
      requires Valid()
      ensures var found := ValuesFor(list, name);
              value == if found == [] || found[0] == "" then default else found[0]
    {
      SelectedValues(list, name);
      assert Entries(headers, Lower(name)) == Select(list, Lower(name));
      if Lower(name) !in headers {
        return default;
      }
      var first := headers[Lower(name)][0].value;
      return if first == "" then default else first;
    }

    method Length() returns (length: nat)
      requires Valid()
      ensures length == |list|
    {
      length := 0;
      var left := headers.Keys;
      KeepNone(list);
      assert headers.Keys - left == {};
      while left != {}
        invariant left <= headers.Keys
        invariant length == |Keep(list, headers.Keys - left)|
        decreases |left|
      {
        var key :| key in left;
        KeepOneKey(headers, list, headers.Keys - left, key);
        assert headers.Keys - (left - {key}) == (headers.Keys - left) + {key};
        length := length + |headers[key]|;
        left := left - {key};
      }
      KeysCoverTheList(headers, list);
      KeepAll(list, headers.Keys);
      assert headers.Keys - {} == headers.Keys;
    }

    /** The iterator and _flatten, for any order in which the keys are enumerated. */
    method Flatten() returns (flat: seq<Header>)
      requires Valid()
      ensures multiset(flat) == multiset(list)
      ensures forall key :: Select(flat, key) == Select(list, key)
      ensures Build(flat) == headers
    {
      flat := [];
      var left := headers.Keys;
      while left != {}
        invariant left <= headers.Keys
        invariant Emitted(headers, flat, left)
        decreases |left|
      {
        var key :| key in left;
        EmitOneKey(headers, list, flat, left, key);
        flat := flat + headers[key];
        left := left - {key};
      }
      forall key ensures Select(flat, key) == Entries(headers, key) == Select(list, key) {
        assert Entries(headers, key) == Select(list, key);
      }
      FlattenMeaning(headers, list, flat);
    }
  }

  /** Everything but the keys left has been emitted. */
  ghost predicate Emitted(m: Index, flat: seq<Header>, left: set<string>) {
    forall key :: Select(flat, key) == if key in left then [] else Entries(m, key)
  }

  lemma EmitOneKey(m: Index, l: seq<Header>, flat: seq<Header>, left: set<string>, key: string)
    requires Agrees(m, l) && Emitted(m, flat, left) && key in left && key in m
    ensures Emitted(m, flat + m[key], left - {key})
  {
    EntriesShareTheirKey(m, l, key);
    forall k ensures Select(flat + m[key], k) == if k in left - {key} then [] else Entries(m, k) {
      SelectConcat(flat, m[key], k);
      SelectUniform(m[key], key, k);
    }
  }

  lemma {:induction false} KeepNone(l: seq<Header>)
    ensures Keep(l, {}) == []
  {
    if l != [] {
      KeepNone(l[1..]);
    }
  }

  lemma {:induction false} SelectIsUniform(l: seq<Header>, key: string)
    ensures forall h :: h in Select(l, key) ==> Key(h) == key
  {
    if l != [] {
      SelectIsUniform(l[1..], key);
    }
  }

  lemma EntriesShareTheirKey(m: Index, l: seq<Header>, key: string)
    requires Agrees(m, l) && key in m
    ensures forall h :: h in m[key] ==> Key(h) == key
  {
    assert Entries(m, key) == Select(l, key);
    SelectIsUniform(l, key);
  }

  lemma {:induction false} SelectUniform(l: seq<Header>, key: string, k: string)
    requires forall h :: h in l ==> Key(h) == key
    ensures Select(l, k) == if k == key then l else []
  {
    if l != [] {
      SelectUniform(l[1..], key, k);
    }
  }

  // ---------------------------------------------------------------- source/http_headers.c

  /** The native class: a list and an iterator over it. */
  class NativeHeaders {
    var headers: seq<Header>
    var currentIndex: nat

    constructor (initial: seq<Header>)
      ensures headers == initial && currentIndex == 0
    {
      headers, currentIndex := initial, 0;
    }

    /** s_headers_get_values scans the whole list. */
    method GetValues(key: string) returns (values: seq<string>)
      ensures values == ValuesFor(headers, key)
    {
      values := [];
      var i := 0;
      assert headers[0..] == headers;
      while i < |headers|
        invariant 0 <= i <= |headers|
        invariant values + ValuesFor(headers[i..], key) == ValuesFor(headers, key)
      {
        var h := headers[i];
        assert headers[i..][1..] == headers[i + 1..];
        FoldedEqualIff(h.name, key);
        if Lower(h.name) == Lower(key) {
          values := values + [h.value];
        }
        i := i + 1;
      }
    }

    /** s_headers__flatten copies the list. */
    method Flatten() returns (flat: seq<Header>)
      ensures flat == headers
    {
      flat := [];
      for i := 0 to |headers|
        invariant flat == headers[..i]
      {
        flat := flat + [headers[i]];
      }
    }

    /** s_iterator_next: the next header, or None once the list is exhausted. */
    method IteratorNext() returns (value: Option<Header>)
      modifies this`currentIndex
      ensures value == if old(currentIndex) < |headers| then Some(headers[old(currentIndex)]) else None
      ensures currentIndex == old(currentIndex) + if value.Some? then 1 else 0
    {
      if currentIndex < |headers| {
        value := Some(headers[currentIndex]);
        currentIndex := currentIndex + 1;
      } else {
        value := None;
      }
    }
  }
}
