/** Temporal units, rounding modes and the fixed tables the ZonedDateTime
    operations consult when they validate rounding options. */
module Units {

  import opened Arithmetic

  /** The units of a difference (`until`/`since`), largest first. */
  datatype TemporalUnit =
    | Years | Months | Weeks | Days | Hours | Minutes | Seconds
    | Milliseconds | Microseconds | Nanoseconds

  /** Position of a unit in the largest-to-smallest order: a larger unit has a larger rank. */
  function Rank(u: TemporalUnit): nat {
    match u
    case Years => 9
    case Months => 8
    case Weeks => 7
    case Days => 6
    case Hours => 5
    case Minutes => 4
    case Seconds => 3
    case Milliseconds => 2
    case Microseconds => 1
    case Nanoseconds => 0
  }

  lemma RankIsInjective(a: TemporalUnit, b: TemporalUnit)
    ensures Rank(a) == Rank(b) ==> a == b
  {
  }

  /** The larger of two units (LargerOfTwoTemporalDurationUnits). */
  function LargerOfTwoUnits(a: TemporalUnit, b: TemporalUnit): (r: TemporalUnit)
    ensures r == a || r == b
    ensures Rank(r) >= Rank(a) && Rank(r) >= Rank(b)
  {
    if Rank(a) >= Rank(b) then a else b
  }

  /** The units `round` and `toString` accept as the smallest unit (singular names). */
  datatype TimeUnit = Day | Hour | Minute | Second | Millisecond | Microsecond | Nanosecond

  /** Length of one unit in nanoseconds (a day taken as 24 hours). */
  function NanosecondsPer(u: TimeUnit): nat {
    match u
    case Day => 86_400_000_000_000
    case Hour => 3_600_000_000_000
    case Minute => 60_000_000_000
    case Second => 1_000_000_000
    case Millisecond => 1_000_000
    case Microsecond => 1_000
    case Nanosecond => 1
  }

  /** The unit one step larger; a day is the largest unit `round` accepts. */
  function NextLarger(u: TimeUnit): TimeUnit {
    match u
    case Day => Day
    case Hour => Day
    case Minute => Hour
    case Second => Minute
    case Millisecond => Second
    case Microsecond => Millisecond
    case Nanosecond => Microsecond
  }

  /** The maximum rounding increment `round` allows for a smallest unit.
      Each entry is how many of the unit make up the next larger unit. */
  function MaximumIncrement(u: TimeUnit): (r: nat)
    ensures r >= 1
    ensures r * NanosecondsPer(u) == NanosecondsPer(NextLarger(u))
  {
    match u
    case Day => 1
    case Hour => 24
    case Minute => 60
    case Second => 60
    case Millisecond => 1000
    case Microsecond => 1000
    case Nanosecond => 1000
  }

  /** The largest increment `round` accepts: the maximum itself is excluded
      (ToTemporalRoundingIncrement with `inclusive` false) unless it is 1. */
  function IncrementCeiling(u: TimeUnit): nat {
    if MaximumIncrement(u) > 1 then MaximumIncrement(u) - 1 else 1
  }

  /** An increment `round` accepts: within 1 and the ceiling, and dividing the
      unit's maximum evenly. */
  predicate ValidRoundingIncrement(u: TimeUnit, increment: int) {
    1 <= increment <= IncrementCeiling(u) && MaximumIncrement(u) % increment == 0
  }

  /** The increments `round` accepts for hours are the proper divisors of a day. */
  lemma HourIncrements(increment: int)
    ensures ValidRoundingIncrement(Hour, increment) <==> increment in {1, 2, 3, 4, 6, 8, 12}
  {
  }

  datatype RoundingMode = Nearest | Ceil | Floor | Trunc

  /** NegateTemporalRoundingMode: swaps the two direction-dependent modes and
      keeps the symmetric ones. */
  function NegateRoundingMode(m: RoundingMode): (r: RoundingMode)
    ensures m == Ceil <==> r == Floor
    ensures m == Floor <==> r == Ceil
    ensures m == Nearest <==> r == Nearest
    ensures m == Trunc <==> r == Trunc
  {
    match m
    case Ceil => Floor
    case Floor => Ceil
    case other => other
  }

  lemma NegateRoundingModeInvolutive(m: RoundingMode)
    ensures NegateRoundingMode(NegateRoundingMode(m)) == m
  {
  }

  /** The largest multiple of `d` not above `x`. */
  function FloorMultiple(x: int, d: int): (m: int)
    requires d > 0
    ensures m % d == 0
    ensures m <= x < m + d
    ensures x - m == x % d
    ensures x >= 0 ==> m >= 0
  {
    DivModUnique(d * (x / d), d, x / d, 0);
    if x >= 0 then
      assert x / d >= 0 by {
        if x / d < 0 { MulMonotone(d, x / d, -1); }
      }
      MulMonotone(d, 0, x / d);
      d * (x / d)
    else d * (x / d)
  }

  /** The smallest multiple of `d` not below `x`. */
  function CeilMultiple(x: int, d: int): (m: int)
    requires d > 0
    ensures m % d == 0
    ensures x <= m < x + d
    ensures m == x <==> x % d == 0
    ensures m != x ==> m == FloorMultiple(x, d) + d
    ensures x <= 0 ==> m <= 0
  {
    if x % d == 0 then x
    else
      var f := FloorMultiple(x, d);
      DivModUnique(f + d, d, f / d + 1, 0);
      if x <= 0 then
        MulMonotone(d, x / d + 1, 0);
        assert f + d == d * (x / d + 1);
        f + d
      else f + d
  }

  /** Reference meaning of the rounding modes on an integer count: round `x` to a
      multiple of `increment`. Ceil and floor round towards positive and negative
      infinity, trunc towards zero, nearest to the closer multiple with ties away
      from zero. */
  function RoundToIncrement(x: int, increment: int, mode: RoundingMode): (r: int)
    requires increment > 0
    ensures r % increment == 0
    ensures x - increment < r < x + increment
    ensures mode == Floor ==> r <= x
    ensures mode == Ceil ==> r >= x
    ensures mode == Trunc ==> (x >= 0 ==> 0 <= r <= x) && (x <= 0 ==> x <= r <= 0)
    ensures mode == Nearest ==> 2 * (r - x) <= increment && 2 * (x - r) <= increment
  {
    var down, up := FloorMultiple(x, increment), CeilMultiple(x, increment);
    var rem := x - down;
    match mode
    case Floor => down
    case Ceil => up
    case Trunc => if x >= 0 then down else up
    case Nearest =>
      if 2 * rem < increment then down
      else if 2 * rem > increment then up
      else if x >= 0 then up else down
  }

  /** The multiples around `-x` are the negated multiples around `x`. */
  lemma MultiplesOfNegation(x: int, d: int)
    requires d > 0
    ensures FloorMultiple(-x, d) == -CeilMultiple(x, d)
    ensures CeilMultiple(-x, d) == -FloorMultiple(x, d)
  {
    var q, rem := x / d, x % d;
    if rem == 0 {
      DivModUnique(-x, d, -q, 0);
      assert d * (-q) == -(d * q);
    } else {
      DivModUnique(-x, d, -q - 1, d - rem);
      assert d * (-q - 1) == -(d * q) - d;
    }
  }

  /** Rounding `-x` under the negated mode gives the negation of rounding `x`:
      the reason `since` negates the mode that `until` uses. */
  lemma RoundingMirror(x: int, increment: int, mode: RoundingMode)
    requires increment > 0
    ensures RoundToIncrement(-x, increment, NegateRoundingMode(mode)) == -RoundToIncrement(x, increment, mode)
  {
    MultiplesOfNegation(x, increment);
  }
}
