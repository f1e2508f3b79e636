/** The exact-time primitive: an unbounded count of nanoseconds since the epoch and
    the big-integer `divide` the epoch accessors use, which truncates toward zero
    (unlike Dafny's Euclidean `/`). */
module ExactTime {

  import opened Arithmetic

  function Abs(n: int): nat {
    if n < 0 then -n else n
  }

  /** `q` is `n` divided by `d` with the fraction discarded: its magnitude is the
      number of whole `d`s in `|n|`, and it never has the opposite sign of `n`. */
  ghost predicate IsTruncatedQuotient(q: int, n: int, d: int) {
    && d > 0
    && Abs(q) * d <= Abs(n) < (Abs(q) + 1) * d
    && (n >= 0 ==> q >= 0)
    && (n <= 0 ==> q <= 0)
  }

  /** Big-integer `divide`: the quotient truncated toward zero. */
  function TruncDiv(n: int, d: int): (q: int)
    requires d > 0
    ensures IsTruncatedQuotient(q, n, d)
  {
    if n >= 0 then
      DivModUnique(n, d, n / d, n % d);
      assert n / d >= 0 by {
        if n / d < 0 { MulMonotone(d, n / d, -1); }
      }
      n / d
    else
      var m := -n;
      assert (m / d + 1) * d == d * (m / d) + d;
      -(m / d)
  }

  /** The truncated quotient is unique: TruncDiv is the only function with its contract. */
  lemma TruncatedQuotientUnique(q1: int, q2: int, n: int, d: int)
    requires IsTruncatedQuotient(q1, n, d) && IsTruncatedQuotient(q2, n, d)
    ensures q1 == q2
  {
    var a, b := Abs(q1), Abs(q2);
    if a < b {
      MulMonotone(d, a + 1, b);
      assert false;
    } else if b < a {
      MulMonotone(d, b + 1, a);
      assert false;
    }
    if n == 0 {
      assert q1 == 0 && q2 == 0;
    }
  }

  /** Truncation is symmetric about zero: dividing `-n` gives the negated quotient
      (where a floor division would not). */
  lemma TruncDivOdd(n: int, d: int)
    requires d > 0
    ensures TruncDiv(-n, d) == -TruncDiv(n, d)
  {
    var q := TruncDiv(n, d);
    assert IsTruncatedQuotient(-q, -n, d);
    TruncatedQuotientUnique(TruncDiv(-n, d), -q, -n, d);
  }

  lemma NestedBounds(n: nat, a: int, b: int, q1: nat, q2: nat)
    requires a > 0 && b > 0
    requires q1 * a <= n < (q1 + 1) * a
    requires q2 * b <= q1 < (q2 + 1) * b
    ensures q2 * (a * b) <= n < (q2 + 1) * (a * b)
  {
    MulMonotone(a, q2 * b, q1);
    assert q2 * (a * b) == a * (q2 * b);
    MulMonotone(a, q1 + 1, (q2 + 1) * b);
    assert (q2 + 1) * (a * b) == a * ((q2 + 1) * b);
  }

  /** Dividing in two steps truncates the same way as dividing once by the product. */
  lemma TruncDivNested(n: int, a: int, b: int)
    requires a > 0 && b > 0
    ensures TruncDiv(TruncDiv(n, a), b) == TruncDiv(n, a * b)
  {
    var q1 := TruncDiv(n, a);
    var q2 := TruncDiv(q1, b);
    NestedBounds(Abs(n), a, b, Abs(q1), Abs(q2));
    TruncatedQuotientUnique(q2, TruncDiv(n, a * b), n, a * b);
  }
}
