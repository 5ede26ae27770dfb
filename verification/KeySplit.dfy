/** String.split and its inverse: distinct keys have distinct lists of parts. */
module KeySplit {

  /** The parts of `key` between occurrences of `delimiter`, taken from the left without overlap.
      An empty delimiter separates every character. `from` is where the search for the next
      occurrence has got to; the text before it belongs to the current part. */
  function SplitFrom(key: string, delimiter: string, from: nat): (parts: seq<string>)
    requires delimiter != [] && from <= |key|
    ensures parts != []
    decreases |key|, |key| - from
  {
    if from + |delimiter| > |key| then
      [key]
    else if key[from..from + |delimiter|] == delimiter then
      [key[..from]] + SplitFrom(key[from + |delimiter|..], delimiter, 0)
    else
      SplitFrom(key, delimiter, from + 1)
  }

  function Characters(key: string): seq<string> {
    seq(|key|, i requires 0 <= i < |key| => [key[i]])
  }

  function Split(key: string, delimiter: string): (parts: seq<string>)
    ensures delimiter != [] ==> parts != []
  {
    if delimiter == [] then Characters(key) else SplitFrom(key, delimiter, 0)
  }

  function Join(parts: seq<string>, delimiter: string): string {
    if parts == [] then []
    else if |parts| == 1 then parts[0]
    else parts[0] + delimiter + Join(parts[1..], delimiter)
  }

  lemma {:induction false} JoinSplitFrom(key: string, delimiter: string, from: nat)
    requires delimiter != [] && from <= |key|
    ensures Join(SplitFrom(key, delimiter, from), delimiter) == key
    decreases |key|, |key| - from
  {
    if from + |delimiter| > |key| {
    } else if key[from..from + |delimiter|] == delimiter {
      var rest := key[from + |delimiter|..];
      JoinSplitFrom(rest, delimiter, 0);
      var parts := [key[..from]] + SplitFrom(rest, delimiter, 0);
      assert parts[1..] == SplitFrom(rest, delimiter, 0);
      assert key == key[..from] + key[from..from + |delimiter|] + rest;
    } else {
      JoinSplitFrom(key, delimiter, from + 1);
    }
  }

  lemma {:induction false} JoinCharacters(key: string)
    ensures Join(Characters(key), []) == key
  {
    if |key| <= 1 {
    } else {
      JoinCharacters(key[1..]);
      assert Characters(key)[1..] == Characters(key[1..]);
      assert [key[0]] + [] + key[1..] == key;
    }
  }

  /** Splitting loses nothing. */
  lemma JoinSplit(key: string, delimiter: string)
    ensures Join(Split(key, delimiter), delimiter) == key
  {
    if delimiter == [] {
      JoinCharacters(key);
    } else {
      JoinSplitFrom(key, delimiter, 0);
    }
  }

  predicate OccursAt(text: string, delimiter: string, at: nat) {
    at + |delimiter| <= |text| && text[at..at + |delimiter|] == delimiter
  }

  /** No part holds an occurrence of the delimiter, so no cut was missed. */
  lemma {:induction false} PartsHoldNoDelimiter(key: string, delimiter: string, from: nat, i: nat, at: nat)
    requires delimiter != [] && from <= |key|
    requires forall j: nat :: j < from ==> !OccursAt(key, delimiter, j)
    requires i < |SplitFrom(key, delimiter, from)|
    ensures !OccursAt(SplitFrom(key, delimiter, from)[i], delimiter, at)
    decreases |key|, |key| - from
  {
    if from + |delimiter| > |key| {
      assert at >= from ==> at + |delimiter| > |key|;
    } else if key[from..from + |delimiter|] == delimiter {
      if i == 0 {
        if at + |delimiter| <= from {
          assert key[..from][at..at + |delimiter|] == key[at..at + |delimiter|];
          assert !OccursAt(key, delimiter, at);
        }
      } else {
        PartsHoldNoDelimiter(key[from + |delimiter|..], delimiter, 0, i - 1, at);
      }
    } else {
      PartsHoldNoDelimiter(key, delimiter, from + 1, i, at);
    }
  }

  lemma {:induction false} NoCut(key: string, delimiter: string, from: nat)
    requires delimiter != [] && from <= |key| && forall j: nat :: !OccursAt(key, delimiter, j)
    ensures SplitFrom(key, delimiter, from) == [key]
    decreases |key| - from
  {
    if from + |delimiter| <= |key| {
      assert !OccursAt(key, delimiter, from);
      NoCut(key, delimiter, from + 1);
    }
  }

  lemma {:induction false} FirstCut(key: string, delimiter: string, from: nat, cut: nat)
    requires delimiter != [] && from <= cut && OccursAt(key, delimiter, cut)
    requires forall j: nat :: from <= j < cut ==> !OccursAt(key, delimiter, j)
    ensures SplitFrom(key, delimiter, from) == [key[..cut]] + SplitFrom(key[cut + |delimiter|..], delimiter, 0)
    decreases cut - from
  {
    if from < cut {
      assert !OccursAt(key, delimiter, from);
      FirstCut(key, delimiter, from + 1, cut);
    }
  }

  lemma {:induction false} LeastOccurrence(key: string, delimiter: string, at: nat) returns (cut: nat)
    requires OccursAt(key, delimiter, at)
    ensures OccursAt(key, delimiter, cut) && forall j: nat :: j < cut ==> !OccursAt(key, delimiter, j)
  {
    cut := at;
    if j: nat :| j < at && OccursAt(key, delimiter, j) {
      cut := LeastOccurrence(key, delimiter, j);
    }
  }

  /** A key is cut at the first occurrence of the delimiter, and what follows is split in turn; an empty
      delimiter cuts out each character. */
  lemma SplitMeaning(key: string, delimiter: string)
    ensures var parts := Split(key, delimiter);
            && (delimiter == [] ==> |parts| == |key| && forall i :: 0 <= i < |key| ==> parts[i] == [key[i]])
            && (delimiter != [] && (forall j: nat :: !OccursAt(key, delimiter, j)) ==> parts == [key])
    ensures forall cut: nat ::
              delimiter != [] && OccursAt(key, delimiter, cut) && (forall j: nat :: j < cut ==> !OccursAt(key, delimiter, j)) ==>
                Split(key, delimiter) == [key[..cut]] + Split(key[cut + |delimiter|..], delimiter)
    ensures delimiter != [] ==>
              || (forall j: nat :: !OccursAt(key, delimiter, j))
              || exists cut: nat :: OccursAt(key, delimiter, cut) && forall j: nat :: j < cut ==> !OccursAt(key, delimiter, j)
  {
    if delimiter != [] {
      if forall j: nat :: !OccursAt(key, delimiter, j) {
        NoCut(key, delimiter, 0);
      } else {
        var at: nat :| OccursAt(key, delimiter, at);
        var cut := LeastOccurrence(key, delimiter, at);
      }
      forall cut: nat | OccursAt(key, delimiter, cut) && forall j: nat :: j < cut ==> !OccursAt(key, delimiter, j)
        ensures Split(key, delimiter) == [key[..cut]] + Split(key[cut + |delimiter|..], delimiter)
      {
        FirstCut(key, delimiter, 0, cut);
      }
    }
  }

  lemma SplitIsInjective(a: string, b: string, delimiter: string)
    ensures Split(a, delimiter) == Split(b, delimiter) <==> a == b
  {
    JoinSplit(a, delimiter);
    JoinSplit(b, delimiter);
  }
}
