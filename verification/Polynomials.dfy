/** Polynomials over GF(2), as sets of exponents, and remainders modulo a generator. */
module Polynomials {

  type Poly = set<nat>

  /** Coefficients are added modulo two. */
  function Add(p: Poly, q: Poly): Poly { (p - q) + (q - p) }

  /** Multiplication by x^k. */
  function Times(p: Poly, k: nat): Poly { set i | i in p :: i + k }

  /** The generator times the sum of x^k over the list. */
  function Multiple(g: Poly, ks: seq<nat>): Poly {
    if ks == [] then {} else Add(Times(g, ks[0]), Multiple(g, ks[1..]))
  }

  /** The two differ by a multiple of the generator. */
  ghost predicate Congruent(p: Poly, q: Poly, g: Poly) {
    exists ks :: Add(p, q) == Multiple(g, ks)
  }

  /** The highest exponent of the generator is n. */
  ghost predicate HasDegree(g: Poly, n: nat) { n in g && forall i :: i in g ==> i <= n }

  ghost predicate IsRemainder(r: Poly, p: Poly, g: Poly, n: nat) {
    (forall i :: i in r ==> i < n) && Congruent(p, r, g)
  }

  // ---------------------------------------------------------------- congruence

  lemma InTimes(p: Poly, k: nat, i: nat)
    ensures i in Times(p, k) <==> i >= k && i - k in p
  {
    if i >= k && i - k in p {
      assert i == (i - k) + k;
    }
  }

  lemma TimesAdd(p: Poly, q: Poly, k: nat)
    ensures Times(Add(p, q), k) == Add(Times(p, k), Times(q, k))
  {
    forall i: nat ensures i in Times(Add(p, q), k) <==> i in Add(Times(p, k), Times(q, k)) {
      InTimes(Add(p, q), k, i);
      InTimes(p, k, i);
      InTimes(q, k, i);
    }
  }

  lemma TimesTimes(p: Poly, j: nat, k: nat)
    ensures Times(Times(p, j), k) == Times(p, j + k)
  {
    forall i: nat ensures i in Times(Times(p, j), k) <==> i in Times(p, j + k) {
      InTimes(Times(p, j), k, i);
      if i >= k {
        InTimes(p, j, i - k);
      }
      InTimes(p, j + k, i);
    }
  }

  lemma TimesZero(p: Poly)
    ensures Times(p, 0) == p
  {
    forall i: nat ensures i in Times(p, 0) <==> i in p {
      InTimes(p, 0, i);
    }
  }

  function Raised(ks: seq<nat>, k: nat): seq<nat> {
    if ks == [] then [] else [ks[0] + k] + Raised(ks[1..], k)
  }

  lemma {:induction false} TimesMultiple(g: Poly, ks: seq<nat>, k: nat)
    ensures Times(Multiple(g, ks), k) == Multiple(g, Raised(ks, k))
  {
    if ks != [] {
      TimesMultiple(g, ks[1..], k);
      TimesAdd(Times(g, ks[0]), Multiple(g, ks[1..]), k);
      TimesTimes(g, ks[0], k);
      assert Raised(ks, k)[1..] == Raised(ks[1..], k);
    }
  }

  lemma AddAssociative(p: Poly, q: Poly, r: Poly)
    ensures Add(Add(p, q), r) == Add(p, Add(q, r))
  {
  }

  lemma AddSwap(p: Poly, q: Poly, r: Poly)
    ensures Add(p, Add(q, r)) == Add(q, Add(p, r))
  {
  }

  lemma AddTwice(p: Poly, q: Poly, r: Poly)
    ensures q == {} ==> Add(p, Add(q, r)) == Add(p, r)
    ensures q == p ==> Add(p, Add(q, r)) == Add({}, r)
  {
  }

  lemma {:induction false} MultipleConcat(g: Poly, ks: seq<nat>, ls: seq<nat>)
    ensures Multiple(g, ks + ls) == Add(Multiple(g, ks), Multiple(g, ls))
  {
    if ks == [] {
      assert ks + ls == ls;
    } else {
      assert (ks + ls)[1..] == ks[1..] + ls;
      MultipleConcat(g, ks[1..], ls);
      AddAssociative(Times(g, ks[0]), Multiple(g, ks[1..]), Multiple(g, ls));
    }
  }

  lemma CongruentToItself(p: Poly, g: Poly)
    ensures Congruent(p, p, g)
  {
    assert Add(p, p) == Multiple(g, []);
  }

  lemma CongruentTransitive(p: Poly, q: Poly, r: Poly, g: Poly)
    requires Congruent(p, q, g) && Congruent(q, r, g)
    ensures Congruent(p, r, g)
  {
    var ks :| Add(p, q) == Multiple(g, ks);
    var ls :| Add(q, r) == Multiple(g, ls);
    MultipleConcat(g, ks, ls);
    assert Add(Add(p, q), Add(q, r)) == Add(p, r);
    assert Add(p, r) == Multiple(g, ks + ls);
  }

  lemma CongruentTimes(p: Poly, q: Poly, g: Poly, k: nat)
    requires Congruent(p, q, g)
    ensures Congruent(Times(p, k), Times(q, k), g)
  {
    var ks :| Add(p, q) == Multiple(g, ks);
    TimesMultiple(g, ks, k);
    TimesAdd(p, q, k);
    assert Add(Times(p, k), Times(q, k)) == Multiple(g, Raised(ks, k));
  }

  lemma CongruentAdd(p: Poly, q: Poly, r: Poly, g: Poly)
    requires Congruent(p, q, g)
    ensures Congruent(Add(p, r), Add(q, r), g)
  {
    var ks :| Add(p, q) == Multiple(g, ks);
    assert Add(Add(p, r), Add(q, r)) == Add(p, q);
    assert Add(Add(p, r), Add(q, r)) == Multiple(g, ks);
  }

  /** Adding the generator changes nothing modulo the generator. */
  lemma CongruentGenerator(p: Poly, g: Poly)
    ensures Congruent(p, Add(p, g), g)
  {
    TimesZero(g);
    assert [0][1..] == [];
    assert Multiple(g, [0]) == Add(Times(g, 0), {}) == g;
    assert Add(p, Add(p, g)) == Multiple(g, [0]);
  }

  // ---------------------------------------------------------------- the remainder is unique

  function Drop(ks: seq<nat>, k: nat): seq<nat> {
    if ks == [] then [] else (if ks[0] == k then [] else [ks[0]]) + Drop(ks[1..], k)
  }

  /** Whether k occurs an odd number of times. */
  function Odd(ks: seq<nat>, k: nat): bool {
    if ks == [] then false else (ks[0] == k) != Odd(ks[1..], k)
  }

  /** What the list contributes at its greatest element k is one copy of the generator, or none. */
  lemma {:induction false} DropGreatest(g: Poly, ks: seq<nat>, k: nat)
    requires forall i :: 0 <= i < |ks| ==> ks[i] <= k
    ensures Multiple(g, ks) == Add(if Odd(ks, k) then Times(g, k) else {}, Multiple(g, Drop(ks, k)))
    ensures forall i :: 0 <= i < |Drop(ks, k)| ==> Drop(ks, k)[i] < k
  {
    if ks != [] {
      DropGreatest(g, ks[1..], k);
      var rest := Drop(ks[1..], k);
      var copy := if Odd(ks[1..], k) then Times(g, k) else {};
      if ks[0] == k {
        assert Drop(ks, k) == rest;
        AddTwice(Times(g, k), copy, Multiple(g, rest));
      } else {
        assert Drop(ks, k) == [ks[0]] + rest && ([ks[0]] + rest)[1..] == rest;
        AddSwap(Times(g, ks[0]), copy, Multiple(g, rest));
      }
    }
  }

  lemma {:induction false} MultipleIsLow(g: Poly, ks: seq<nat>, n: nat, k: nat)
    requires HasDegree(g, n) && forall i :: 0 <= i < |ks| ==> ks[i] < k
    ensures forall i :: i in Multiple(g, ks) ==> i < n + k
  {
    if ks != [] {
      MultipleIsLow(g, ks[1..], n, k);
      forall i | i in Times(g, ks[0]) ensures i < n + k {
        InTimes(g, ks[0], i);
      }
    }
  }

  /** A multiple of the generator without exponents from n on is zero. */
  lemma {:induction false} LowMultipleIsZero(g: Poly, ks: seq<nat>, n: nat, k: nat)
    requires HasDegree(g, n) && (forall i :: 0 <= i < |ks| ==> ks[i] < k)
    requires forall i :: i in Multiple(g, ks) ==> i < n
    ensures Multiple(g, ks) == {}
    decreases k
  {
    if k == 0 {
      assert ks == [];
    } else {
      var rest := Drop(ks, k - 1);
      DropGreatest(g, ks, k - 1);
      MultipleIsLow(g, rest, n, k - 1);
      InTimes(g, k - 1, n + (k - 1));
      assert !Odd(ks, k - 1);
      LowMultipleIsZero(g, rest, n, k - 1);
    }
  }

  function Bound(ks: seq<nat>): (k: nat)
    ensures forall i :: 0 <= i < |ks| ==> ks[i] < k
  {
    if ks == [] then 0 else var k := Bound(ks[1..]); if ks[0] < k then k else ks[0] + 1
  }

  /** There is only one remainder. */
  lemma RemainderIsUnique(r: Poly, q: Poly, p: Poly, g: Poly, n: nat)
    requires HasDegree(g, n) && IsRemainder(r, p, g, n) && IsRemainder(q, p, g, n)
    ensures r == q
  {
    var ks :| Add(p, r) == Multiple(g, ks);
    var ls :| Add(p, q) == Multiple(g, ls);
    MultipleConcat(g, ks, ls);
    assert Add(Add(p, r), Add(p, q)) == Add(r, q);
    LowMultipleIsZero(g, ks + ls, n, Bound(ks + ls));
    assert Add(r, q) == {};
    assert forall i :: i in r <==> i in q;
  }
}
