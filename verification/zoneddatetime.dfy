/** Temporal.ZonedDateTime: an immutable triple of exact time, time zone and
    calendar. Every instance method first checks that its receiver is a
    ZonedDateTime (a TypeError otherwise); "modifiers" build a new triple. */
module ZonedDateTimes {

  import opened Wrappers
  import opened Arithmetic
  import opened Units
  import opened Identifiers
  import opened ExactTime
  import opened Durations
  import opened Slots

  // ---------------------------------------------------------------------------
  // Construction

  /** The instant range RejectInstantRange accepts (bounds are collaborators). */
  predicate InInstantRange(env: Collaborators, epochNanoseconds: int) {
    env.nsMin <= epochNanoseconds <= env.nsMax
  }

  /** A triple the constructor can have produced. */
  predicate Valid(env: Collaborators, z: ZonedDateTime) {
    InInstantRange(env, z.epochNanoseconds)
  }

  /** `new ZonedDateTime(epochNanoseconds, timeZone, calendar)`, with the
      arguments already coerced; a missing calendar is the ISO 8601 calendar. */
  function Construct(env: Collaborators, epochNanoseconds: int, timeZone: TimeZone, calendar: Option<Calendar>)
    : (r: Result<ZonedDateTime>)
    ensures r.Ok? <==> InInstantRange(env, epochNanoseconds)
    ensures r.Err? ==> r.error == RangeError
    ensures r.Ok? ==> Valid(env, r.value)
    ensures r.Ok? ==> r.value.epochNanoseconds == epochNanoseconds
    ensures r.Ok? ==> r.value.timeZone == timeZone
    ensures r.Ok? ==> r.value.calendar == (if calendar.Some? then calendar.value else ISO8601)
  {
    if !InInstantRange(env, epochNanoseconds) then Err(RangeError)
    else Ok(ZonedDateTime(epochNanoseconds, timeZone, calendar.GetOr(ISO8601)))
  }

  /** The branding check every instance method but `valueOf` starts with. */
  function Receiver(v: Value): (r: Result<ZonedDateTime>)
    ensures r.Ok? <==> v.ZdtValue?
    ensures r.Ok? ==> r.value == v.zdt
    ensures r.Err? ==> r.error == TypeError
  {
    match v
    case ZdtValue(z) => Ok(z)
    case Foreign(_) => Err(TypeError)
  }

  /** ToTemporalZonedDateTime: a ZonedDateTime is taken as it is; anything else
      goes to the conversion collaborator. */
  function ToZonedDateTime(env: Collaborators, item: Value, options: FromOptions): (r: Result<ZonedDateTime>)
    ensures item.ZdtValue? ==> r == Ok(item.zdt)
    ensures item.Foreign? ==> r == env.toZonedDateTime(item.repr, options)
  {
    match item
    case ZdtValue(z) => Ok(z)
    case Foreign(repr) => env.toZonedDateTime(repr, options)
  }

  // ---------------------------------------------------------------------------
  // Accessors

  function CalendarOf(recv: Value): (r: Result<Calendar>)
    ensures !recv.ZdtValue? ==> r == Err(TypeError)
    ensures recv.ZdtValue? ==> r == Ok(recv.zdt.calendar)
  {
    var z :- Receiver(recv);
    Ok(z.calendar)
  }

  function TimeZoneOf(recv: Value): (r: Result<TimeZone>)
    ensures !recv.ZdtValue? ==> r == Err(TypeError)
    ensures recv.ZdtValue? ==> r == Ok(recv.zdt.timeZone)
  {
    var z :- Receiver(recv);
    Ok(z.timeZone)
  }

  /** `dateTime(zdt)`: the civil date-time at the stored instant in the stored
      zone, with the stored calendar attached. It is recomputed on every call. */
  function DateTime(env: Collaborators, z: ZonedDateTime): (dt: PlainDateTime)
    ensures dt.calendar == z.calendar
    ensures dt.iso == env.isoDateTimeFor(z.timeZone, z.epochNanoseconds)
  {
    PlainDateTime(env.isoDateTimeFor(z.timeZone, z.epochNanoseconds), z.calendar)
  }

  /** `year`, `month`, `day`, `dayOfWeek`, `dayOfYear`, `weekOfYear`,
      `daysInWeek`, `daysInMonth`, `daysInYear`, `monthsInYear`: asked of the
      stored calendar about the civil date-time. */
  function CalendarField(env: Collaborators, recv: Value, getter: CalendarGetter): (r: Result<int>)
    ensures !recv.ZdtValue? ==> r == Err(TypeError)
    ensures recv.ZdtValue? ==>
      r == Ok(env.calendarGetter(recv.zdt.calendar, getter, DateTime(env, recv.zdt)))
  {
    var z :- Receiver(recv);
    Ok(env.calendarGetter(z.calendar, getter, DateTime(env, z)))
  }

  function InLeapYear(env: Collaborators, recv: Value): (r: Result<bool>)
    ensures !recv.ZdtValue? ==> r == Err(TypeError)
    ensures recv.ZdtValue? ==> r == Ok(env.inLeapYear(recv.zdt.calendar, DateTime(env, recv.zdt)))
  {
    var z :- Receiver(recv);
    Ok(env.inLeapYear(z.calendar, DateTime(env, z)))
  }

  function ClockFieldOf(iso: IsoDateTime, field: ClockField): int {
    match field
    case HourOf => iso.hour
    case MinuteOf => iso.minute
    case SecondOf => iso.second
    case MillisecondOf => iso.millisecond
    case MicrosecondOf => iso.microsecond
    case NanosecondOf => iso.nanosecond
  }

  /** `hour` … `nanosecond`: read straight from the ISO fields of the civil date-time. */
  function Clock(env: Collaborators, recv: Value, field: ClockField): (r: Result<int>)
    ensures !recv.ZdtValue? ==> r == Err(TypeError)
    ensures recv.ZdtValue? ==>
      r == Ok(ClockFieldOf(env.isoDateTimeFor(recv.zdt.timeZone, recv.zdt.epochNanoseconds), field))
  {
    var z :- Receiver(recv);
    Ok(ClockFieldOf(DateTime(env, z).iso, field))
  }

  /** `epochSeconds`: the stored count divided by 10^9, truncated toward zero. */
  function EpochSeconds(recv: Value): (r: Result<int>)
    ensures !recv.ZdtValue? ==> r == Err(TypeError)
    ensures recv.ZdtValue? ==> r.Ok? && IsTruncatedQuotient(r.value, recv.zdt.epochNanoseconds, 1_000_000_000)
  {
    var z :- Receiver(recv);
    Ok(TruncDiv(z.epochNanoseconds, 1_000_000_000))
  }

  /** `epochMilliseconds`: the stored count divided by 10^6, truncated toward zero. */
  function EpochMilliseconds(recv: Value): (r: Result<int>)
    ensures !recv.ZdtValue? ==> r == Err(TypeError)
    ensures recv.ZdtValue? ==> r.Ok? && IsTruncatedQuotient(r.value, recv.zdt.epochNanoseconds, 1_000_000)
  {
    var z :- Receiver(recv);
    Ok(TruncDiv(z.epochNanoseconds, 1_000_000))
  }

  /** `epochMicroseconds`: the stored count divided by 10^3, truncated toward zero. */
  function EpochMicroseconds(recv: Value): (r: Result<int>)
    ensures !recv.ZdtValue? ==> r == Err(TypeError)
    ensures recv.ZdtValue? ==> r.Ok? && IsTruncatedQuotient(r.value, recv.zdt.epochNanoseconds, 1_000)
  {
    var z :- Receiver(recv);
    Ok(TruncDiv(z.epochNanoseconds, 1_000))
  }

  /** `epochNanoseconds`: the stored count itself. */
  function EpochNanoseconds(recv: Value): (r: Result<int>)
    ensures !recv.ZdtValue? ==> r == Err(TypeError)
    ensures recv.ZdtValue? ==> r == Ok(recv.zdt.epochNanoseconds)
  {
    var z :- Receiver(recv);
    Ok(z.epochNanoseconds)
  }

  /** The coarser accessors agree with each other: seconds are the truncated
      thousandths of milliseconds, and milliseconds those of microseconds. */
  lemma EpochAccessorsAgree(recv: Value)
    requires recv.ZdtValue?
    ensures EpochSeconds(recv).value == TruncDiv(EpochMilliseconds(recv).value, 1000)
    ensures EpochMilliseconds(recv).value == TruncDiv(EpochMicroseconds(recv).value, 1000)
  {
    var ns := recv.zdt.epochNanoseconds;
    TruncDivNested(ns, 1_000_000, 1000);
    TruncDivNested(ns, 1000, 1000);
  }

  /** Largest integer a JavaScript Number holds exactly. */
  const MaxSafeInteger: int := 9_007_199_254_740_991

  /** 10^8 days in nanoseconds: the documented extent of the instant range. */
  const InstantLimit: int := 8_640_000_000_000_000_000_000

  /** Within the instant range the Numbers returned by `epochSeconds` and
      `epochMilliseconds` are exact: converting the quotient loses nothing. */
  lemma EpochMillisecondsIsSafeInteger(recv: Value)
    requires recv.ZdtValue?
    requires -InstantLimit <= recv.zdt.epochNanoseconds <= InstantLimit
    ensures -MaxSafeInteger <= EpochMilliseconds(recv).value <= MaxSafeInteger
    ensures -MaxSafeInteger <= EpochSeconds(recv).value <= MaxSafeInteger
  {
    var ms := EpochMilliseconds(recv).value;
    if Abs(ms) > MaxSafeInteger {
      MulMonotone(1_000_000, MaxSafeInteger + 1, Abs(ms));
      assert false;
    }
  }

  /** `offset`: the zone's offset string at the stored instant. */
  function Offset(env: Collaborators, recv: Value): (r: Result<string>)
    ensures !recv.ZdtValue? ==> r == Err(TypeError)
    ensures recv.ZdtValue? ==> r == Ok(env.offsetStringFor(recv.zdt.timeZone, recv.zdt.epochNanoseconds))
  {
    var z :- Receiver(recv);
    Ok(env.offsetStringFor(z.timeZone, z.epochNanoseconds))
  }

  /** `getISOFields()`: the ISO fields of the civil date-time with the slots and the offset. */
  datatype IsoFields = IsoFields(calendar: Calendar, iso: IsoDateTime, offset: string, timeZone: TimeZone)

  function GetISOFields(env: Collaborators, recv: Value): (r: Result<IsoFields>)
    ensures !recv.ZdtValue? ==> r == Err(TypeError)
    ensures recv.ZdtValue? ==> r.Ok?
    ensures r.Ok? ==> r.value.calendar == recv.zdt.calendar && r.value.timeZone == recv.zdt.timeZone
    ensures r.Ok? ==> r.value.iso == env.isoDateTimeFor(recv.zdt.timeZone, recv.zdt.epochNanoseconds)
    ensures r.Ok? ==> Ok(r.value.offset) == Offset(env, recv)
  {
    var z :- Receiver(recv);
    var dt := DateTime(env, z);
    Ok(IsoFields(z.calendar, dt.iso, env.offsetStringFor(z.timeZone, z.epochNanoseconds), z.timeZone))
  }

  /** `toInstant()`: a new Instant on the stored exact time. */
  function ToInstant(recv: Value): (r: Result<int>)
    ensures !recv.ZdtValue? ==> r == Err(TypeError)
    ensures recv.ZdtValue? ==> r == EpochNanoseconds(recv)
  {
    var z :- Receiver(recv);
    Ok(z.epochNanoseconds)
  }

  /** `toDateTime()`: the civil date-time in the stored zone and calendar. */
  function ToDateTime(env: Collaborators, recv: Value): (r: Result<PlainDateTime>)
    ensures !recv.ZdtValue? ==> r == Err(TypeError)
    ensures recv.ZdtValue? ==> r.Ok? && r.value.calendar == recv.zdt.calendar
    ensures recv.ZdtValue? ==> r.value.iso == env.isoDateTimeFor(recv.zdt.timeZone, recv.zdt.epochNanoseconds)
  {
    var z :- Receiver(recv);
    Ok(DateTime(env, z))
  }

  /** `toDate()`: the date part of the civil date-time, calendar attached. */
  function ToDate(env: Collaborators, recv: Value): (r: Result<PlainDate>)
    ensures !recv.ZdtValue? ==> r == Err(TypeError)
    ensures recv.ZdtValue? ==> r.Ok? && r.value.calendar == recv.zdt.calendar
    ensures recv.ZdtValue? ==>
      var iso := env.isoDateTimeFor(recv.zdt.timeZone, recv.zdt.epochNanoseconds);
      (r.value.year, r.value.month, r.value.day) == (iso.year, iso.month, iso.day)
  {
    var dt :- ToDateTime(env, recv);
    Ok(PlainDate(dt.iso.year, dt.iso.month, dt.iso.day, dt.calendar))
  }

  /** `toTime()`: the wall-clock part of the civil date-time; each of its fields is
      the corresponding getter's answer. */
  function ToTime(env: Collaborators, recv: Value): (r: Result<PlainTime>)
    ensures !recv.ZdtValue? ==> r == Err(TypeError)
    ensures recv.ZdtValue? ==> r.Ok?
    ensures r.Ok? ==> Clock(env, recv, HourOf) == Ok(r.value.hour) && Clock(env, recv, MinuteOf) == Ok(r.value.minute)
    ensures r.Ok? ==> Clock(env, recv, SecondOf) == Ok(r.value.second)
    ensures r.Ok? ==> Clock(env, recv, MillisecondOf) == Ok(r.value.millisecond)
    ensures r.Ok? ==> Clock(env, recv, MicrosecondOf) == Ok(r.value.microsecond)
    ensures r.Ok? ==> Clock(env, recv, NanosecondOf) == Ok(r.value.nanosecond)
  {
    var dt :- ToDateTime(env, recv);
    var iso := dt.iso;
    Ok(PlainTime(iso.hour, iso.minute, iso.second, iso.millisecond, iso.microsecond, iso.nanosecond))
  }

  // ---------------------------------------------------------------------------
  // Copies with one slot replaced

  /** `withTimeZone(timeZone)`: the same exact time and calendar in another zone. */
  function WithTimeZone(env: Collaborators, recv: Value, timeZone: TimeZone): (r: Result<ZonedDateTime>)
    ensures !recv.ZdtValue? ==> r == Err(TypeError)
    ensures recv.ZdtValue? && Valid(env, recv.zdt) ==> r == Ok(recv.zdt.(timeZone := timeZone))
  {
    var z :- Receiver(recv);
    Construct(env, z.epochNanoseconds, timeZone, Some(z.calendar))
  }

  /** `withCalendar(calendar)`: the same exact time and zone in another calendar. */
  function WithCalendar(env: Collaborators, recv: Value, calendar: Calendar): (r: Result<ZonedDateTime>)
    ensures !recv.ZdtValue? ==> r == Err(TypeError)
    ensures recv.ZdtValue? && Valid(env, recv.zdt) ==> r == Ok(recv.zdt.(calendar := calendar))
  {
    var z :- Receiver(recv);
    Construct(env, z.epochNanoseconds, z.timeZone, Some(calendar))
  }

  /** Switching to another calendar and back restores the original value. */
  lemma WithCalendarRoundTrip(env: Collaborators, z: ZonedDateTime, calendar: Calendar)
    requires Valid(env, z)
    ensures WithCalendar(env, ZdtValue(z), calendar).Ok?
    ensures WithCalendar(env, ZdtValue(WithCalendar(env, ZdtValue(z), calendar).value), z.calendar) == Ok(z)
  {
  }

  /** Changing the calendar leaves the wall-clock time unchanged, and changing the
      zone leaves the exact time unchanged. */
  lemma ReplacedSlotOnlyChangesItsFields(env: Collaborators, z: ZonedDateTime, calendar: Calendar, timeZone: TimeZone, field: ClockField)
    requires Valid(env, z)
    ensures Clock(env, ZdtValue(WithCalendar(env, ZdtValue(z), calendar).value), field) == Clock(env, ZdtValue(z), field)
    ensures EpochNanoseconds(ZdtValue(WithTimeZone(env, ZdtValue(z), timeZone).value)) == EpochNanoseconds(ZdtValue(z))
    ensures EpochSeconds(ZdtValue(WithTimeZone(env, ZdtValue(z), timeZone).value)) == EpochSeconds(ZdtValue(z))
  {
  }

  /** Static `from(item, options)`. A ZonedDateTime is copied through the
      constructor; anything else is converted by the collaborator, with the
      offset option defaulting to `reject`. */
  function From(env: Collaborators, item: Value, options: FromOptions): (r: Result<ZonedDateTime>)
    ensures item.ZdtValue? && Valid(env, item.zdt) ==> r == Ok(item.zdt)
    ensures item.Foreign? ==>
      r == env.toZonedDateTime(item.repr, options.(offset := Some(options.offset.GetOr(OffsetOption.Reject))))
  {
    var offset := options.offset.GetOr(OffsetOption.Reject);
    match item
    case ZdtValue(z) => Construct(env, z.epochNanoseconds, z.timeZone, Some(z.calendar))
    case Foreign(repr) => env.toZonedDateTime(repr, options.(offset := Some(offset)))
  }

  /** Copying an existing ZonedDateTime ignores every option. */
  lemma FromIgnoresOptions(env: Collaborators, z: ZonedDateTime, options1: FromOptions, options2: FromOptions)
    ensures From(env, ZdtValue(z), options1) == From(env, ZdtValue(z), options2)
  {
  }

  // ---------------------------------------------------------------------------
  // Equality and ordering

  /** `equals(other)`: exact times first, then zones, then calendars, stopping at
      the first difference. */
  function Equals(env: Collaborators, recv: Value, other: Value): (r: Result<bool>)
    ensures !recv.ZdtValue? ==> r == Err(TypeError)
    ensures recv.ZdtValue? && other.ZdtValue? ==> r == Ok(EqualSlots(env, recv.zdt, other.zdt))
    ensures recv.ZdtValue? && other.Foreign? ==>
      r == (match env.toZonedDateTime(other.repr, NoFromOptions)
            case Ok(o) => Ok(EqualSlots(env, recv.zdt, o))
            case Err(e) => Err(e))
  {
    var z :- Receiver(recv);
    var o :- ToZonedDateTime(env, other, NoFromOptions);
    if z.epochNanoseconds != o.epochNanoseconds then Ok(false)
    else if !env.timeZoneEquals(z.timeZone, o.timeZone) then Ok(false)
    else Ok(env.calendarEquals(z.calendar, o.calendar))
  }

  /** The meaning of `equals` on two triples. */
  predicate EqualSlots(env: Collaborators, a: ZonedDateTime, b: ZonedDateTime) {
    && a.epochNanoseconds == b.epochNanoseconds
    && env.timeZoneEquals(a.timeZone, b.timeZone)
    && env.calendarEquals(a.calendar, b.calendar)
  }

  /** Unequal exact times decide `equals` without the zone or calendar comparison:
      whatever those collaborators answer, the result is false. */
  lemma EqualsStopsAtExactTime(env: Collaborators, a: ZonedDateTime, b: ZonedDateTime,
                               tzEquals: (TimeZone, TimeZone) -> bool, calEquals: (Calendar, Calendar) -> bool)
    requires a.epochNanoseconds != b.epochNanoseconds
    ensures Equals(env.(timeZoneEquals := tzEquals, calendarEquals := calEquals), ZdtValue(a), ZdtValue(b)) == Ok(false)
  {
  }

  /** Equal exact times but unequal zones decide `equals` without the calendar comparison. */
  lemma EqualsStopsAtTimeZone(env: Collaborators, a: ZonedDateTime, b: ZonedDateTime, calEquals: (Calendar, Calendar) -> bool)
    requires a.epochNanoseconds == b.epochNanoseconds
    requires !env.timeZoneEquals(a.timeZone, b.timeZone)
    ensures Equals(env.(calendarEquals := calEquals), ZdtValue(a), ZdtValue(b)) == Ok(false)
  {
  }

  /** The ordering of static `compare` on two triples. */
  function CompareSlots(env: Collaborators, one: ZonedDateTime, two: ZonedDateTime): (r: int)
    ensures one.epochNanoseconds < two.epochNanoseconds ==> r == -1
    ensures one.epochNanoseconds > two.epochNanoseconds ==> r == 1
    ensures one.epochNanoseconds == two.epochNanoseconds && env.calendarCompare(one.calendar, two.calendar) != 0
      ==> r == env.calendarCompare(one.calendar, two.calendar)
    ensures one.epochNanoseconds == two.epochNanoseconds && env.calendarCompare(one.calendar, two.calendar) == 0
      ==> r == env.timeZoneCompare(one.timeZone, two.timeZone)
  {
    if one.epochNanoseconds < two.epochNanoseconds then -1
    else if one.epochNanoseconds > two.epochNanoseconds then 1
    else
      var calendarResult := env.calendarCompare(one.calendar, two.calendar);
      if calendarResult != 0 then calendarResult
      else env.timeZoneCompare(one.timeZone, two.timeZone)
  }

  /** Static `compare(one, two)`; both arguments are converted first. */
  function Compare(env: Collaborators, one: Value, two: Value): (r: Result<int>)
    ensures one.ZdtValue? && two.ZdtValue? ==> r == Ok(CompareSlots(env, one.zdt, two.zdt))
    ensures r == match ToZonedDateTime(env, one, NoFromOptions)
      case Err(e) => Err(e)
      case Ok(a) =>
        match ToZonedDateTime(env, two, NoFromOptions)
        case Err(e) => Err(e)
        case Ok(b) => Ok(CompareSlots(env, a, b))
  {
    var a :- ToZonedDateTime(env, one, NoFromOptions);
    var b :- ToZonedDateTime(env, two, NoFromOptions);
    Ok(CompareSlots(env, a, b))
  }

  /** Both component comparisons are three-way total preorders. */
  ghost predicate LawfulComparisons(env: Collaborators) {
    IsComparator(env.timeZoneCompare) && IsComparator(env.calendarCompare)
  }

  lemma CompareIsThreeWay(env: Collaborators, a: ZonedDateTime, b: ZonedDateTime)
    requires LawfulComparisons(env)
    ensures CompareSlots(env, a, b) in {-1, 0, 1}
  {
  }

  lemma CompareReflexive(env: Collaborators, a: ZonedDateTime)
    requires LawfulComparisons(env)
    ensures CompareSlots(env, a, a) == 0
  {
    assert env.calendarCompare(a.calendar, a.calendar) == -env.calendarCompare(a.calendar, a.calendar);
    assert env.timeZoneCompare(a.timeZone, a.timeZone) == -env.timeZoneCompare(a.timeZone, a.timeZone);
  }

  lemma CompareAntisymmetric(env: Collaborators, a: ZonedDateTime, b: ZonedDateTime)
    requires LawfulComparisons(env)
    ensures CompareSlots(env, a, b) == -CompareSlots(env, b, a)
  {
    assert env.calendarCompare(a.calendar, b.calendar) == -env.calendarCompare(b.calendar, a.calendar);
    assert env.timeZoneCompare(a.timeZone, b.timeZone) == -env.timeZoneCompare(b.timeZone, a.timeZone);
  }

  lemma CompareTransitive(env: Collaborators, a: ZonedDateTime, b: ZonedDateTime, c: ZonedDateTime)
    requires LawfulComparisons(env)
    requires CompareSlots(env, a, b) <= 0 && CompareSlots(env, b, c) <= 0
    ensures CompareSlots(env, a, c) <= 0
  {
    var ca, cb := env.calendarCompare, env.timeZoneCompare;
    if a.epochNanoseconds == b.epochNanoseconds == c.epochNanoseconds {
      assert ca(a.calendar, b.calendar) <= 0 && ca(b.calendar, c.calendar) <= 0;
      if ca(a.calendar, c.calendar) == 0 {
        // a and c have equivalent calendars, so b's lies between them in both directions
        assert ca(c.calendar, a.calendar) <= 0;
        assert ca(b.calendar, a.calendar) <= 0;
        assert ca(c.calendar, b.calendar) <= 0;
        assert cb(a.timeZone, b.timeZone) <= 0 && cb(b.timeZone, c.timeZone) <= 0;
      }
    }
  }

  /** `compare` answers 0 exactly when `equals` answers true, provided each
      component comparison answers 0 exactly for equal components. */
  lemma CompareZeroIffEqual(env: Collaborators, a: ZonedDateTime, b: ZonedDateTime)
    requires forall x, y :: env.timeZoneCompare(x, y) == 0 <==> env.timeZoneEquals(x, y)
    requires forall x, y :: env.calendarCompare(x, y) == 0 <==> env.calendarEquals(x, y)
    ensures CompareSlots(env, a, b) == 0 <==> EqualSlots(env, a, b)
  {
  }

  /** Zones and calendars compared by their identifiers, character by character. */
  ghost predicate ComparesByIdentifier(env: Collaborators) {
    && (forall x: TimeZone, y: TimeZone :: env.timeZoneCompare(x, y) == CodeUnitCompare(x.id, y.id))
    && (forall x: Calendar, y: Calendar :: env.calendarCompare(x, y) == CodeUnitCompare(x.id, y.id))
    && (forall x: TimeZone, y: TimeZone :: env.timeZoneEquals(x, y) == (x.id == y.id))
    && (forall x: Calendar, y: Calendar :: env.calendarEquals(x, y) == (x.id == y.id))
  }

  /** Identifier comparison satisfies the laws assumed above, and then `compare`
      orders ZonedDateTimes totally: it answers 0 only for the same triple. */
  lemma IdentifierComparisonIsLawful(env: Collaborators, a: ZonedDateTime, b: ZonedDateTime)
    requires ComparesByIdentifier(env)
    ensures LawfulComparisons(env)
    ensures CompareSlots(env, a, b) == 0 <==> a == b
    ensures Equals(env, ZdtValue(a), ZdtValue(b)) == Ok(a == b)
  {
    CodeUnitCompareIsComparator();
    forall x: TimeZone, y: TimeZone ensures env.timeZoneCompare(x, y) == -env.timeZoneCompare(y, x) {
      CodeUnitCompareAntisymmetric(x.id, y.id);
    }
    forall x: TimeZone, y: TimeZone, z: TimeZone | env.timeZoneCompare(x, y) <= 0 && env.timeZoneCompare(y, z) <= 0
      ensures env.timeZoneCompare(x, z) <= 0
    {
      CodeUnitCompareTransitive(x.id, y.id, z.id);
    }
    forall x: Calendar, y: Calendar ensures env.calendarCompare(x, y) == -env.calendarCompare(y, x) {
      CodeUnitCompareAntisymmetric(x.id, y.id);
    }
    forall x: Calendar, y: Calendar, z: Calendar | env.calendarCompare(x, y) <= 0 && env.calendarCompare(y, z) <= 0
      ensures env.calendarCompare(x, z) <= 0
    {
      CodeUnitCompareTransitive(x.id, y.id, z.id);
    }
    CompareZeroIffEqual(env, a, b);
  }
}
