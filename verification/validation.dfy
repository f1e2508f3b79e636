/** The operations of ZonedDateTime whose bodies are not implemented yet: each
    validates its receiver and arguments and then throws a plain `Error`. The
    validation prefixes are modelled in full; the settings a prefix settles on
    are returned by a `...Request` function so that they can be stated. */
module Validation {

  import opened Wrappers
  import opened Units
  import opened Arithmetic
  import opened Durations
  import opened Slots
  import opened ZonedDateTimes

  /** `valueOf()`: always a TypeError, whatever the receiver; ZonedDateTimes are
      compared with `compare` or `equals`, never by coercion. */
  function ValueOf(recv: Value): (r: Result<int>)
    ensures r == Err(TypeError)
  {
    Err(TypeError)
  }

  /** `hoursInDay`: the receiver check, then not implemented. */
  function HoursInDay(recv: Value): (r: Result<int>)
    ensures !recv.ZdtValue? ==> r == Err(TypeError)
    ensures recv.ZdtValue? ==> r == Err(Error)
  {
    var _ :- Receiver(recv);
    Err(Error)
  }

  /** `startOfDay()`: the receiver check, then not implemented. */
  function StartOfDay(recv: Value): (r: Result<ZonedDateTime>)
    ensures !recv.ZdtValue? ==> r == Err(TypeError)
    ensures recv.ZdtValue? ==> r == Err(Error)
  {
    var _ :- Receiver(recv);
    Err(Error)
  }

  /** `with(like, options)`: the receiver check, then not implemented. */
  function With(recv: Value, like: Value, options: FromOptions): (r: Result<ZonedDateTime>)
    ensures !recv.ZdtValue? ==> r == Err(TypeError)
    ensures recv.ZdtValue? ==> r == Err(Error)
  {
    var _ :- Receiver(recv);
    Err(Error)
  }

  /** `add(duration, options)` and `subtract(duration, options)` share their
      prefix: the receiver check, then a RangeError for a duration whose nonzero
      fields do not all share one sign, then not implemented. */
  function AddOrSubtract(recv: Value, duration: DurationRecord, overflow: Option<Overflow>): (r: Result<ZonedDateTime>)
    ensures r.Err?
    ensures !recv.ZdtValue? ==> r.error == TypeError
    ensures recv.ZdtValue? && MixedSigns(Fields(duration)) ==> r.error == RangeError
    ensures recv.ZdtValue? && !MixedSigns(Fields(duration)) ==> r.error == Error
  {
    var _ :- Receiver(recv);
    var _ :- RejectDurationSign(duration);
    Err(Error)
  }

  function Add(recv: Value, duration: DurationRecord, overflow: Option<Overflow>): (r: Result<ZonedDateTime>)
    ensures r == AddOrSubtract(recv, duration, overflow)
  {
    AddOrSubtract(recv, duration, overflow)
  }

  function Subtract(recv: Value, duration: DurationRecord, overflow: Option<Overflow>): (r: Result<ZonedDateTime>)
    ensures r == AddOrSubtract(recv, duration, overflow)
  {
    AddOrSubtract(recv, duration, overflow)
  }

  // ---------------------------------------------------------------------------
  // until / since

  /** The options of `until`/`since`, already coerced; `None` is an option left out. */
  datatype DifferenceOptions = DifferenceOptions(
    smallestUnit: Option<TemporalUnit>,
    largestUnit: Option<TemporalUnit>,
    roundingMode: Option<RoundingMode>,
    roundingIncrement: Option<int>)

  /** The settings a difference is computed with. */
  datatype DifferenceRequest = DifferenceRequest(
    smallestUnit: TemporalUnit,
    largestUnit: TemporalUnit,
    roundingMode: RoundingMode,
    roundingIncrement: int)

  /** The smallest unit: nanoseconds unless given. */
  function SmallestUnitOf(options: DifferenceOptions): TemporalUnit {
    options.smallestUnit.GetOr(Nanoseconds)
  }

  /** The largest unit: the larger of days and the smallest unit unless given. */
  function LargestUnitOf(options: DifferenceOptions): TemporalUnit {
    options.largestUnit.GetOr(LargerOfTwoUnits(Days, SmallestUnitOf(options)))
  }

  /** The prefix `until` and `since` share, the rounding mode's default (`nearest`)
      negated for `since`. */
  function DifferenceRequestFor(env: Collaborators, recv: Value, other: Value, options: DifferenceOptions, negate: bool)
    : (r: Result<DifferenceRequest>)
  {
    var z :- Receiver(recv);
    var o :- ToZonedDateTime(env, other, NoFromOptions);
    if z.calendar.id != o.calendar.id then Err(RangeError)
    else
      var smallest := SmallestUnitOf(options);
      var largest := LargestUnitOf(options);
      if Rank(largest) < Rank(smallest) then Err(RangeError)
      else
        var mode := options.roundingMode.GetOr(Nearest);
        Ok(DifferenceRequest(smallest, largest, if negate then NegateRoundingMode(mode) else mode,
                             options.roundingIncrement.GetOr(1)))
  }

  /** The validation prefix of `until(other, options)`. */
  function UntilRequest(env: Collaborators, recv: Value, other: Value, options: DifferenceOptions)
    : (r: Result<DifferenceRequest>)
    ensures !recv.ZdtValue? ==> r == Err(TypeError)
    ensures recv.ZdtValue? ==>
      match ToZonedDateTime(env, other, NoFromOptions)
      case Err(e) => r == Err(e)
      case Ok(o) =>
        && (recv.zdt.calendar.id != o.calendar.id ==> r == Err(RangeError))
        && (recv.zdt.calendar.id == o.calendar.id ==>
              (r.Ok? <==> Rank(LargestUnitOf(options)) >= Rank(SmallestUnitOf(options))))
        && (r.Err? ==> r.error == RangeError)
    ensures r.Ok? ==> recv.ZdtValue? && r.value.smallestUnit == options.smallestUnit.GetOr(Nanoseconds)
    ensures r.Ok? ==> r.value.largestUnit == options.largestUnit.GetOr(LargerOfTwoUnits(Days, r.value.smallestUnit))
    ensures r.Ok? ==> Rank(r.value.largestUnit) >= Rank(r.value.smallestUnit)
    ensures r.Ok? && options.largestUnit.None? ==> Rank(r.value.largestUnit) >= Rank(Days)
    ensures r.Ok? ==> r.value.roundingMode == options.roundingMode.GetOr(Nearest)
    ensures r.Ok? ==> r.value.roundingIncrement == options.roundingIncrement.GetOr(1)
  {
    DifferenceRequestFor(env, recv, other, options, false)
  }

  /** The validation prefix of `since(other, options)`: the checks and defaults
      of `until`, with the rounding mode negated. */
  function SinceRequest(env: Collaborators, recv: Value, other: Value, options: DifferenceOptions)
    : (r: Result<DifferenceRequest>)
    ensures !recv.ZdtValue? ==> r == Err(TypeError)
    ensures recv.ZdtValue? ==>
      match ToZonedDateTime(env, other, NoFromOptions)
      case Err(e) => r == Err(e)
      case Ok(o) =>
        && (recv.zdt.calendar.id != o.calendar.id ==> r == Err(RangeError))
        && (recv.zdt.calendar.id == o.calendar.id ==>
              (r.Ok? <==> Rank(LargestUnitOf(options)) >= Rank(SmallestUnitOf(options))))
        && (r.Err? ==> r.error == RangeError)
    ensures r.Ok? ==> recv.ZdtValue? && r.value.smallestUnit == options.smallestUnit.GetOr(Nanoseconds)
    ensures r.Ok? ==> r.value.largestUnit == options.largestUnit.GetOr(LargerOfTwoUnits(Days, r.value.smallestUnit))
    ensures r.Ok? ==> Rank(r.value.largestUnit) >= Rank(r.value.smallestUnit)
    ensures r.Ok? ==> r.value.roundingMode == NegateRoundingMode(options.roundingMode.GetOr(Nearest))
    ensures r.Ok? ==> r.value.roundingIncrement == options.roundingIncrement.GetOr(1)
  {
    DifferenceRequestFor(env, recv, other, options, true)
  }

  /** `since` validates exactly as `until` does and differs only in rounding in the
      opposite direction. */
  lemma SinceMirrorsUntil(env: Collaborators, recv: Value, other: Value, options: DifferenceOptions)
    ensures SinceRequest(env, recv, other, options) ==
      match UntilRequest(env, recv, other, options)
      case Ok(q) => Ok(q.(roundingMode := NegateRoundingMode(q.roundingMode)))
      case Err(e) => Err(e)
  {
  }

  /** `until(other, options)`: the prefix, then not implemented. */
  function Until(env: Collaborators, recv: Value, other: Value, options: DifferenceOptions): (r: Result<int>)
    ensures UntilRequest(env, recv, other, options).Err? ==> r == Err(UntilRequest(env, recv, other, options).error)
    ensures UntilRequest(env, recv, other, options).Ok? ==> r == Err(Error)
  {
    var _ :- UntilRequest(env, recv, other, options);
    Err(Error)
  }

  /** `since(other, options)`: the prefix, then not implemented. */
  function Since(env: Collaborators, recv: Value, other: Value, options: DifferenceOptions): (r: Result<int>)
    ensures SinceRequest(env, recv, other, options).Err? ==> r == Err(SinceRequest(env, recv, other, options).error)
    ensures SinceRequest(env, recv, other, options).Ok? ==> r == Err(Error)
  {
    var _ :- SinceRequest(env, recv, other, options);
    Err(Error)
  }

  // ---------------------------------------------------------------------------
  // round

  /** The options of `round`, already coerced. */
  datatype RoundOptions = RoundOptions(
    smallestUnit: TimeUnit,
    roundingMode: Option<RoundingMode>,
    roundingIncrement: Option<int>)

  datatype RoundRequest = RoundRequest(smallestUnit: TimeUnit, roundingMode: RoundingMode, roundingIncrement: int)

  /** A divisor of m other than m itself fits into m at least twice. */
  lemma ProperDivisorFitsTwice(m: int, i: int)
    requires 1 <= i <= m && m % i == 0
    ensures i < m ==> m / i >= 2
  {
    var q := m / i;
    assert m == i * q;
    if i < m && q <= 1 {
      MulMonotone(i, q, 1);
      assert false;
    }
  }

  /** The validation prefix of `round(options)`: options are required, the mode
      defaults to `nearest`, and the increment (default 1) must divide the
      maximum for the smallest unit without being that maximum (except for days,
      whose maximum is 1). An accepted increment therefore fits at least twice
      into the next larger unit. */
  function RoundRequestFor(recv: Value, options: Option<RoundOptions>): (r: Result<RoundRequest>)
    ensures !recv.ZdtValue? ==> r == Err(TypeError)
    ensures recv.ZdtValue? && options.None? ==> r == Err(TypeError)
    ensures recv.ZdtValue? && options.Some? ==>
      (r.Ok? <==> ValidRoundingIncrement(options.value.smallestUnit, options.value.roundingIncrement.GetOr(1)))
    ensures recv.ZdtValue? && options.Some? && r.Err? ==> r.error == RangeError
    ensures r.Ok? ==> options.Some? && r.value.smallestUnit == options.value.smallestUnit
    ensures r.Ok? ==> r.value.roundingMode == options.value.roundingMode.GetOr(Nearest)
    ensures r.Ok? ==> r.value.roundingIncrement == options.value.roundingIncrement.GetOr(1)
    ensures r.Ok? ==> 1 <= r.value.roundingIncrement
    ensures r.Ok? && r.value.smallestUnit != Day ==>
      r.value.roundingIncrement < MaximumIncrement(r.value.smallestUnit)
      && MaximumIncrement(r.value.smallestUnit) / r.value.roundingIncrement >= 2
  {
    var _ :- Receiver(recv);
    if options.None? then Err(TypeError)
    else
      var o := options.value;
      var increment := o.roundingIncrement.GetOr(1);
      if !ValidRoundingIncrement(o.smallestUnit, increment) then Err(RangeError)
      else
        ProperDivisorFitsTwice(MaximumIncrement(o.smallestUnit), increment);
        Ok(RoundRequest(o.smallestUnit, o.roundingMode.GetOr(Nearest), increment))
  }

  /** `round(options)`: the prefix, then not implemented. */
  function Round(recv: Value, options: Option<RoundOptions>): (r: Result<ZonedDateTime>)
    ensures RoundRequestFor(recv, options).Err? ==> r == Err(RoundRequestFor(recv, options).error)
    ensures RoundRequestFor(recv, options).Ok? ==> r == Err(Error)
  {
    var _ :- RoundRequestFor(recv, options);
    Err(Error)
  }
}
