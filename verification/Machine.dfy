/** Bytes and the machine integers the native code counts with. */
module Machine {

  type byte = x: int | 0 <= x < 256

  const TWO_63: int := 0x8000_0000_0000_0000
  const TWO_64: int := 0x1_0000_0000_0000_0000

  /** int64_t. */
  predicate IsInt64(x: int) { -TWO_63 <= x < TWO_63 }

  /** size_t and uint64_t arithmetic wraps. */
  function Wrap(x: int): (r: nat)
    ensures r < TWO_64
  {
    if 0 <= x < TWO_64 then x else x % TWO_64
  }

  /** A size_t passed where an int64_t is expected. */
  function ToInt64(x: nat): (r: int)
    requires x < TWO_64
    ensures IsInt64(r)
    ensures r == x <==> x < TWO_63
  {
    if x < TWO_63 then x else x - TWO_64
  }

  lemma WrapSum(a: int, b: int)
    ensures Wrap(Wrap(a) + b) == Wrap(a + b)
    ensures Wrap(a) == 0 <==> a % TWO_64 == 0
  {
  }

  lemma SmallMultiple(x: nat)
    requires x < TWO_64
    ensures x % TWO_64 == 0 <==> x == 0
  {
  }
}
