/**
 * Lexicographic order on strings, the model of `localeCompare` on the
 * digit strings it is applied to here.
 */
module StringOrder {

  /** `x` is at or before `y` in lexicographic order. */
  predicate LexLeq(x: string, y: string)
    decreases |x|
  {
    x == [] || (y != [] && (x[0] < y[0] || (x[0] == y[0] && LexLeq(x[1..], y[1..]))))
  }

  /** `a.localeCompare(b)` read as a three-way lexicographic comparison. */
  function LexCompare(x: string, y: string): (r: int)
    ensures r == 0 <==> x == y
    ensures r <= 0 <==> LexLeq(x, y)
    ensures r >= 0 <==> LexLeq(y, x)
    ensures -1 <= r <= 1
  {
    if x == y then
      LexLeqReflexive(x);
      0
    else if LexLeq(x, y) then
      LexLeqAntisymmetric(x, y);
      -1
    else
      LexLeqTotal(x, y);
      1
  }

  lemma {:induction false} LexLeqReflexive(x: string)
    ensures LexLeq(x, x)
    decreases |x|
  {
    if x != [] {
      LexLeqReflexive(x[1..]);
    }
  }

  lemma {:induction false} LexLeqTotal(x: string, y: string)
    ensures LexLeq(x, y) || LexLeq(y, x)
    decreases |x|
  {
    if x != [] && y != [] && x[0] == y[0] {
      LexLeqTotal(x[1..], y[1..]);
    }
  }

  lemma {:induction false} LexLeqAntisymmetric(x: string, y: string)
    ensures LexLeq(x, y) && LexLeq(y, x) ==> x == y
    decreases |x|
  {
    if x != [] && LexLeq(x, y) && LexLeq(y, x) {
      LexLeqAntisymmetric(x[1..], y[1..]);
      assert x == [x[0]] + x[1..] && y == [y[0]] + y[1..];
    }
  }

  lemma {:induction false} LexLeqTransitive(x: string, y: string, z: string)
    requires LexLeq(x, y) && LexLeq(y, z)
    ensures LexLeq(x, z)
    decreases |x|
  {
    if x != [] && x[0] == y[0] && y[0] == z[0] {
      LexLeqTransitive(x[1..], y[1..], z[1..]);
    }
  }

  /** The comparison is antisymmetric: swapping the arguments flips the sign. */
  lemma LexCompareFlips(x: string, y: string)
    ensures LexCompare(x, y) == -LexCompare(y, x)
  {
  }
}
