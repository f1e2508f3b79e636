/** The state of a ZonedDateTime (its three slots), the other values its
    operations take and return, and the collaborators it delegates to. */
module Slots {

  import opened Wrappers
  import opened Units

  /** A time zone, known to the core by its identifier (TimeZoneToString). */
  datatype TimeZone = TimeZone(id: string)

  /** A calendar, known to the core by its identifier (CalendarToString). */
  datatype Calendar = Calendar(id: string)

  /** The default calendar of the constructor (GetISO8601Calendar). */
  const ISO8601: Calendar := Calendar("iso8601")

  /** The ISO fields of a civil (wall-clock) date-time. */
  datatype IsoDateTime = IsoDateTime(
    year: int, month: int, day: int,
    hour: int, minute: int, second: int,
    millisecond: int, microsecond: int, nanosecond: int)

  /** A civil date-time with its calendar attached (what `dateTime(zdt)` returns). */
  datatype PlainDateTime = PlainDateTime(iso: IsoDateTime, calendar: Calendar)

  datatype PlainDate = PlainDate(year: int, month: int, day: int, calendar: Calendar)

  datatype PlainTime = PlainTime(
    hour: int, minute: int, second: int,
    millisecond: int, microsecond: int, nanosecond: int)

  /** The three slots written once by the constructor: the exact time in
      nanoseconds since the epoch, the time zone and the calendar. */
  datatype ZonedDateTime = ZonedDateTime(epochNanoseconds: int, timeZone: TimeZone, calendar: Calendar)

  /** A JavaScript value as a method receiver or argument: a ZonedDateTime, or
      anything else (a string, a property bag, another type), whose content is
      opaque to the core. */
  datatype Value = ZdtValue(zdt: ZonedDateTime) | Foreign(repr: string)

  datatype Overflow = Constrain | Reject

  datatype Disambiguation = Compatible | Earlier | Later | Reject

  datatype OffsetOption = Use | Ignore | Prefer | Reject

  /** The options of `from`, already coerced; `None` is an option left out. */
  datatype FromOptions = FromOptions(
    overflow: Option<Overflow>,
    disambiguation: Option<Disambiguation>,
    offset: Option<OffsetOption>)

  const NoFromOptions: FromOptions := FromOptions(None, None, None)

  /** The calendar-dependent getters, answered by the calendar. */
  datatype CalendarGetter =
    | YearOf | MonthOf | DayOf
    | DayOfWeek | DayOfYear | WeekOfYear
    | DaysInWeek | DaysInMonth | DaysInYear | MonthsInYear

  /** The wall-clock getters, read from the ISO fields. */
  datatype ClockField = HourOf | MinuteOf | SecondOf | MillisecondOf | MicrosecondOf | NanosecondOf

  /** Precision of the seconds part of a string: `auto`, `minute` (no seconds),
      or a fixed number of fraction digits. */
  datatype Precision = AutoPrecision | MinutePrecision | FractionDigits(digits: nat)

  /** The code this core delegates to and that is not part of the model, each as
      a function value: the instant range, the time-zone and calendar
      comparisons, the time-zone database, the calendar, the conversion of other
      values, rounding of a date-time, and the padding helpers of the string format. */
  datatype Collaborators = Collaborators(
    nsMin: int,
    nsMax: int,
    timeZoneEquals: (TimeZone, TimeZone) -> bool,
    calendarEquals: (Calendar, Calendar) -> bool,
    timeZoneCompare: (TimeZone, TimeZone) -> int,
    calendarCompare: (Calendar, Calendar) -> int,
    isoDateTimeFor: (TimeZone, int) -> IsoDateTime,
    offsetStringFor: (TimeZone, int) -> string,
    calendarGetter: (Calendar, CalendarGetter, PlainDateTime) -> int,
    inLeapYear: (Calendar, PlainDateTime) -> bool,
    toZonedDateTime: (string, FromOptions) -> Result<ZonedDateTime>,
    roundDateTime: (IsoDateTime, int, TimeUnit, RoundingMode) -> IsoDateTime,
    isoYearString: int -> string,
    isoDateTimePartString: int -> string,
    formatSecondsStringPart: (int, int, int, int, Precision) -> string)
}
