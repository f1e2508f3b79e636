/** Ordering of identifier strings, and what it takes for a three-way comparison
    function to order a type. */
module Identifiers {

  /** A three-way comparison that returns -1, 0 or 1, is antisymmetric and whose
      "not greater" relation is transitive: a total preorder. */
  ghost predicate IsComparator<T(!new)>(cmp: (T, T) -> int) {
    && (forall x, y :: -1 <= cmp(x, y) <= 1)
    && (forall x, y :: cmp(x, y) == -cmp(y, x))
    && (forall x, y, z :: cmp(x, y) <= 0 && cmp(y, z) <= 0 ==> cmp(x, z) <= 0)
  }

  /** Comparison of two identifiers character by character, a proper prefix
      first: the order JavaScript's `<` gives strings. */
  function CodeUnitCompare(x: string, y: string): (r: int)
    ensures -1 <= r <= 1
    ensures r == 0 <==> x == y
  {
    if x == [] then (if y == [] then 0 else -1)
    else if y == [] then 1
    else if x[0] < y[0] then -1
    else if x[0] > y[0] then 1
    else
      assert x == [x[0]] + x[1..] && y == [y[0]] + y[1..];
      CodeUnitCompare(x[1..], y[1..])
  }

  lemma {:induction false} CodeUnitCompareAntisymmetric(x: string, y: string)
    ensures CodeUnitCompare(x, y) == -CodeUnitCompare(y, x)
  {
    if x != [] && y != [] && x[0] == y[0] {
      CodeUnitCompareAntisymmetric(x[1..], y[1..]);
    }
  }

  lemma {:induction false} CodeUnitCompareTransitive(x: string, y: string, z: string)
    requires CodeUnitCompare(x, y) <= 0 && CodeUnitCompare(y, z) <= 0
    ensures CodeUnitCompare(x, z) <= 0
  {
    if x != [] && y != [] && z != [] && x[0] == y[0] && y[0] == z[0] {
      CodeUnitCompareTransitive(x[1..], y[1..], z[1..]);
    }
  }

  lemma CodeUnitCompareIsComparator()
    ensures IsComparator(CodeUnitCompare)
  {
    forall x, y ensures CodeUnitCompare(x, y) == -CodeUnitCompare(y, x) {
      CodeUnitCompareAntisymmetric(x, y);
    }
    forall x, y, z | CodeUnitCompare(x, y) <= 0 && CodeUnitCompare(y, z) <= 0
      ensures CodeUnitCompare(x, z) <= 0
    {
      CodeUnitCompareTransitive(x, y, z);
    }
  }
}
