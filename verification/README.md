# Temporal.ZonedDateTime, modelled in Dafny

This project models `Temporal.ZonedDateTime` from the Temporal polyfill
(`polyfill/lib/zoneddatetime.mjs`). A ZonedDateTime is an immutable triple:
an exact time (a count of nanoseconds since the Unix epoch), a time zone and a
calendar. Every instance method except `valueOf` first checks that its receiver
is a ZonedDateTime and throws a `TypeError` otherwise; `valueOf` always throws a
`TypeError`. The getters read the slots, or
ask the time zone for the civil date-time at the stored instant and the calendar
for its fields. `withTimeZone` and `withCalendar` build a new triple with one slot
replaced. `equals` and the static `compare` look at the exact time first, then at
the identities of the zone and the calendar. `toString` and `toJSON` write an
ISO 8601 / RFC 3339 date-time followed by the numeric offset and the bracketed
zone and calendar annotations of RFC 9557. Several methods (`with`, `add`,
`subtract`, `until`, `since`, `round`, `startOfDay`, `hoursInDay`) only validate
their receiver and options and then throw a plain `Error`. The model keeps that
validation prefix and the `Error`.

The model is pure: datatypes, functions and lemmas. A JavaScript receiver or
argument is a `Value`, either a ZonedDateTime or a foreign value whose content the
core does not inspect. Every throw is an `Err` of the kind `TypeError`,
`RangeError` or `Error`. The code the core delegates to is a `Collaborators`
record of function values, and lemmas state their assumptions about it as
preconditions. That code is the instant-range bounds, the time-zone database,
the calendar, the conversion of other values, the rounding of a date-time and the
padding helpers of the string format.

Files, in dependency order:

- `wrappers.dfy`: `Option`, `Result` and the exception kinds.
- `arithmetic.dfy`: two facts about multiplication and Euclidean division.
- `exact.dfy`: division of a big integer truncated toward zero, as `bigInt.divide` does.
- `units.dfy`: temporal units, maximum rounding increments, rounding modes and their negation.
- `identifiers.dfy`: comparison of identifiers by code unit.
- `durations.dfy`: the sign check on the fields of a duration.
- `slots.dfy`: the state of a ZonedDateTime and the values around it.
- `zoneddatetime.dfy`: construction, getters, conversions, `withTimeZone`, `withCalendar`, `from`, `equals`, `compare`.
- `validation.dfy`: the methods that validate and then throw `Error`.
- `serialization.dfy`: `zonedDateTimeToString`, `toString`, `toJSON` and reading the annotations back.

Where the code and the documented behaviour differ, the model follows the code.
The documented `round` accepts any increment that divides the unit's maximum;
the code passes `false` for the `inclusive` flag of `ToTemporalRoundingIncrement`,
which also rejects the maximum itself (24 hours, 60 minutes, and so on), and the
model does the same. The documented methods `with`, `add`, `subtract`, `until`,
`since`, `round`, `startOfDay` and `hoursInDay` have full semantics; the code
validates and then throws `Error`, and so does the model.

## Model

| member | source | states |
|---|---|---|
| ZonedDateTimes.Construct | polyfill/lib/zoneddatetime.mjs:29-43 | succeeds exactly when the exact time lies in the instant range, else RangeError; the result stores the given exact time and zone, and the calendar defaults to ISO 8601 |
| ZonedDateTimes.Receiver | polyfill/lib/zoneddatetime.mjs:55 | succeeds exactly for a ZonedDateTime receiver, returning it; TypeError for any other value |
| ZonedDateTimes.ToZonedDateTime | polyfill/lib/zoneddatetime.mjs:274 | a ZonedDateTime argument is taken as it is; any other value goes to the conversion |
| ZonedDateTimes.CalendarOf | polyfill/lib/zoneddatetime.mjs:54-57 | TypeError for a non-ZonedDateTime receiver, else the stored calendar |
| ZonedDateTimes.TimeZoneOf | polyfill/lib/zoneddatetime.mjs:58-61 | TypeError for a non-ZonedDateTime receiver, else the stored time zone |
| ZonedDateTimes.DateTime | polyfill/lib/zoneddatetime.mjs:399-401 | the civil date-time is the zone's reading of the stored instant, with the stored calendar attached |
| ZonedDateTimes.CalendarField | polyfill/lib/zoneddatetime.mjs:62-73 | year, month, day, and dayOfWeek, dayOfYear, weekOfYear (lines 117-128), daysInWeek, daysInMonth, daysInYear, monthsInYear (lines 133-148): TypeError for a foreign receiver, else the stored calendar's answer about the civil date-time |
| ZonedDateTimes.InLeapYear | polyfill/lib/zoneddatetime.mjs:149-152 | TypeError for a foreign receiver, else the stored calendar's answer about the civil date-time |
| ZonedDateTimes.Clock | polyfill/lib/zoneddatetime.mjs:74-97 | hour … nanosecond: TypeError for a foreign receiver, else the matching ISO field of the zone's civil date-time at the stored instant |
| ZonedDateTimes.EpochSeconds | polyfill/lib/zoneddatetime.mjs:98-102 | the stored nanoseconds divided by 10^9, truncated toward zero (bounded by the quotient's magnitude on both sides, sign of the dividend) |
| ZonedDateTimes.EpochMilliseconds | polyfill/lib/zoneddatetime.mjs:103-107 | the stored nanoseconds divided by 10^6, truncated toward zero |
| ZonedDateTimes.EpochMicroseconds | polyfill/lib/zoneddatetime.mjs:108-112 | the stored nanoseconds divided by 10^3, truncated toward zero |
| ZonedDateTimes.EpochNanoseconds | polyfill/lib/zoneddatetime.mjs:113-116 | TypeError for a foreign receiver, else the stored exact time |
| ZonedDateTimes.EpochAccessorsAgree | polyfill/lib/zoneddatetime.mjs:98-112 | seconds are the truncated thousandths of milliseconds, and milliseconds those of microseconds |
| ZonedDateTimes.EpochMillisecondsIsSafeInteger | polyfill/lib/zoneddatetime.mjs:101-106 | within ±10^8 days the quotients that the unary `+` turns into Numbers are safe integers, so the conversion is exact |
| ZonedDateTimes.Offset | polyfill/lib/zoneddatetime.mjs:153-156 | TypeError for a foreign receiver, else the zone's offset string at the stored instant |
| ZonedDateTimes.GetISOFields | polyfill/lib/zoneddatetime.mjs:351-369 | carries the stored calendar and zone, the civil date-time's ISO fields, and the same offset string as `offset` |
| ZonedDateTimes.ToInstant | polyfill/lib/zoneddatetime.mjs:310-314 | the instant has the same exact time as `epochNanoseconds` |
| ZonedDateTimes.ToDateTime | polyfill/lib/zoneddatetime.mjs:323-326 | the civil date-time in the stored zone with the stored calendar |
| ZonedDateTimes.ToDate | polyfill/lib/zoneddatetime.mjs:315-318 | year, month and day of the civil date-time, with the stored calendar |
| ZonedDateTimes.ToTime | polyfill/lib/zoneddatetime.mjs:319-322 | each field of the time equals the answer of the matching getter |
| ZonedDateTimes.WithTimeZone | polyfill/lib/zoneddatetime.mjs:173-180 | TypeError for a foreign receiver; for a valid receiver, the same triple with only the zone replaced |
| ZonedDateTimes.WithCalendar | polyfill/lib/zoneddatetime.mjs:181-188 | TypeError for a foreign receiver; for a valid receiver, the same triple with only the calendar replaced |
| ZonedDateTimes.WithCalendarRoundTrip | polyfill/lib/zoneddatetime.mjs:181-188 | switching to another calendar and back gives the original value |
| ZonedDateTimes.ReplacedSlotOnlyChangesItsFields | polyfill/lib/zoneddatetime.mjs:173-188 | a new calendar keeps every wall-clock field; a new zone keeps the exact time and the epoch seconds |
| ZonedDateTimes.From | polyfill/lib/zoneddatetime.mjs:370-379 | a valid ZonedDateTime comes back unchanged; any other item goes to the conversion with the offset option defaulting to `reject` |
| ZonedDateTimes.FromIgnoresOptions | polyfill/lib/zoneddatetime.mjs:371-377 | copying a ZonedDateTime gives the same result whatever the options |
| ZonedDateTimes.Equals | polyfill/lib/zoneddatetime.mjs:272-280 | TypeError for a foreign receiver; a conversion error is passed on; otherwise true exactly when the exact times are equal and the zones and calendars are equal |
| ZonedDateTimes.EqualsStopsAtExactTime | polyfill/lib/zoneddatetime.mjs:277 | different exact times give false whatever the zone and calendar equalities answer |
| ZonedDateTimes.EqualsStopsAtTimeZone | polyfill/lib/zoneddatetime.mjs:278 | equal exact times with unequal zones give false whatever the calendar equality answers |
| ZonedDateTimes.CompareSlots | polyfill/lib/zoneddatetime.mjs:383-389 | -1 or 1 when the exact times differ; otherwise the calendar comparison when it is nonzero, else the zone comparison |
| ZonedDateTimes.Compare | polyfill/lib/zoneddatetime.mjs:380-390 | converts the first argument, then the second, passing on the first conversion error; otherwise the slot ordering of the two converted triples |
| ZonedDateTimes.CompareIsThreeWay | polyfill/lib/zoneddatetime.mjs:385-389 | with three-way component comparisons, the answer is -1, 0 or 1 |
| ZonedDateTimes.CompareReflexive | polyfill/lib/zoneddatetime.mjs:383-389 | a value compares 0 to itself |
| ZonedDateTimes.CompareAntisymmetric | polyfill/lib/zoneddatetime.mjs:383-389 | swapping the arguments negates the answer |
| ZonedDateTimes.CompareTransitive | polyfill/lib/zoneddatetime.mjs:383-389 | "not after" is transitive, so `compare` is a valid sort comparator |
| ZonedDateTimes.CompareZeroIffEqual | polyfill/lib/zoneddatetime.mjs:272-280 | when each component comparison answers 0 exactly for equal components, `compare` answers 0 exactly when `equals` answers true |
| ZonedDateTimes.IdentifierComparisonIsLawful | polyfill/lib/zoneddatetime.mjs:387-389 | comparing zones and calendars by identifier satisfies the comparator laws; then `compare` answers 0 only for the same triple, and `equals` is identity |
| Identifiers.CodeUnitCompare | polyfill/lib/zoneddatetime.mjs:387-389 | the answer is -1, 0 or 1, and 0 exactly for equal identifiers |
| Identifiers.CodeUnitCompareAntisymmetric | polyfill/lib/zoneddatetime.mjs:387-389 | swapping the identifiers negates the answer |
| Identifiers.CodeUnitCompareTransitive | polyfill/lib/zoneddatetime.mjs:387-389 | "not after" on identifiers is transitive |
| Identifiers.CodeUnitCompareIsComparator | polyfill/lib/zoneddatetime.mjs:387-389 | identifier comparison is a three-way total preorder |
| ExactTime.TruncDiv | polyfill/lib/zoneddatetime.mjs:101 | the quotient truncated toward zero: its magnitude is the largest q with q·d ≤ the dividend's magnitude, and it takes the dividend's sign |
| ExactTime.TruncatedQuotientUnique | polyfill/lib/zoneddatetime.mjs:101 | only one integer is a truncated quotient of a given dividend and divisor |
| ExactTime.TruncDivOdd | polyfill/lib/zoneddatetime.mjs:101-111 | instants before the epoch give the negation of the quotient for the mirrored instant after it |
| ExactTime.TruncDivNested | polyfill/lib/zoneddatetime.mjs:101-111 | dividing by a and then by b, truncating each time, equals dividing by a·b once |
| Durations.DurationSign | polyfill/lib/zoneddatetime.mjs:193 | -1, 0 or 1; 0 exactly when every field is zero; a nonzero sign is the sign of the first nonzero field |
| Durations.RejectDurationSign | polyfill/lib/zoneddatetime.mjs:193 | succeeds exactly when no two nonzero fields have opposite signs, else RangeError |
| Units.LargerOfTwoUnits | polyfill/lib/zoneddatetime.mjs:221 | the answer is one of the two units and is at least as large as both |
| Units.RankIsInjective | polyfill/lib/zoneddatetime.mjs:223 | different units have different sizes, so the unit-range check is a strict order on units |
| Units.MaximumIncrement | polyfill/lib/zoneddatetime.mjs:258-266 | the table value is positive and is the number of units in the next larger unit |
| Units.NegateRoundingMode | polyfill/lib/zoneddatetime.mjs:246 | swaps ceil and floor and keeps nearest and trunc |
| Units.NegateRoundingModeInvolutive | polyfill/lib/zoneddatetime.mjs:246 | negating twice gives the original mode |
| Units.RoundToIncrement | polyfill/lib/zoneddatetime.mjs:224-246 | what a rounding mode means: the result is a multiple of the increment less than one increment away; floor does not exceed the input, ceil does not fall below it, trunc moves toward zero and nearest stays within half an increment |
| Units.RoundingMirror | polyfill/lib/zoneddatetime.mjs:245-246 | rounding the negated value with the negated mode gives the negated result, which is why `since` negates the mode |
| Validation.ValueOf | polyfill/lib/zoneddatetime.mjs:303-305 | always TypeError, whatever the receiver |
| Validation.HoursInDay | polyfill/lib/zoneddatetime.mjs:129-132 | TypeError for a foreign receiver, else the not-implemented Error |
| Validation.StartOfDay | polyfill/lib/zoneddatetime.mjs:306-309 | TypeError for a foreign receiver, else the not-implemented Error |
| Validation.With | polyfill/lib/zoneddatetime.mjs:157-172 | TypeError for a foreign receiver, else the not-implemented Error |
| Validation.AddOrSubtract | polyfill/lib/zoneddatetime.mjs:189-208 | always an error: TypeError for a foreign receiver, RangeError for a duration with mixed signs, otherwise the not-implemented Error |
| Validation.Add | polyfill/lib/zoneddatetime.mjs:189-198 | fails exactly as the shared prefix of add and subtract |
| Validation.Subtract | polyfill/lib/zoneddatetime.mjs:199-208 | fails exactly as the shared prefix of add and subtract |
| Validation.UntilRequest | polyfill/lib/zoneddatetime.mjs:209-227 | TypeError for a foreign receiver; a conversion error of `other` is passed on; RangeError for different calendar ids or a largest unit smaller than the smallest; the smallest unit is the given one or nanoseconds, the largest the given one or the larger of days and the smallest, the mode the given one or nearest, the increment the given one or 1 |
| Validation.SinceRequest | polyfill/lib/zoneddatetime.mjs:230-249 | the same checks, errors and unit and increment defaults as `until`, with the mode (the given one or nearest) negated |
| Validation.SinceMirrorsUntil | polyfill/lib/zoneddatetime.mjs:209-251 | `since` fails exactly when `until` fails, and otherwise differs only in the negated rounding mode |
| Validation.Until | polyfill/lib/zoneddatetime.mjs:209-229 | the prefix's error is passed on, otherwise the not-implemented Error |
| Validation.Since | polyfill/lib/zoneddatetime.mjs:230-251 | the prefix's error is passed on, otherwise the not-implemented Error |
| Validation.RoundRequestFor | polyfill/lib/zoneddatetime.mjs:252-269 | TypeError for a foreign receiver or missing options; succeeds exactly when the increment (default 1) divides the unit's maximum and is not the maximum itself (except 1 for days), else RangeError; the increment is the given one or 1 and fits at least twice into the next larger unit; the mode defaults to nearest |
| Units.HourIncrements | polyfill/lib/zoneddatetime.mjs:258-267 | the hour increments `round` accepts are exactly 1, 2, 3, 4, 6, 8 and 12 |
| Validation.Round | polyfill/lib/zoneddatetime.mjs:252-271 | the prefix's error is passed on, otherwise the not-implemented Error |
| Serialization.ZonedDateTimeToString | polyfill/lib/zoneddatetime.mjs:403-451 | the string starts with the (rounded) date-time and ends with the calendar annotation |
| Serialization.OffsetFollowsDateTime | polyfill/lib/zoneddatetime.mjs:448 | showing the offset inserts exactly the offset of the stored instant right after the date-time, and changes nothing else |
| Serialization.AnnotationsRoundTrip | polyfill/lib/zoneddatetime.mjs:447-450 | when no piece contains a bracket, splitting at the first `[` gives back the date-time with its offset and exactly the zone and calendar annotations that were asked for |
| Serialization.IdentifiersRoundTrip | polyfill/lib/zoneddatetime.mjs:447-450 | with the zone shown and the calendar not suppressed, the zone id and the calendar id read back from the string are the stored ones |
| Serialization.ToString | polyfill/lib/zoneddatetime.mjs:281-294 | TypeError for a foreign receiver; otherwise always rounds, with mode defaulting to trunc and every annotation defaulting to auto |
| Serialization.ToStringTruncatesByDefault | polyfill/lib/zoneddatetime.mjs:285 | leaving out the rounding mode is the same as asking for trunc |
| Serialization.ToJSON | polyfill/lib/zoneddatetime.mjs:299-302 | TypeError for a foreign receiver; otherwise the auto-precision string with every annotation shown as auto and no rounding |
| Serialization.ToJSONIsDefaultToString | polyfill/lib/zoneddatetime.mjs:281-302 | when rounding to one nanosecond changes nothing, `toJSON()` equals `toString()` with default options |

## Left out

- `toLocaleString` (lines 295-298) is left out: it formats through `Intl.DateTimeFormat`.
- `toYearMonth`, `toMonthDay` and `getFields` (lines 327-350) are left out: they go through the calendar's `fields`, `yearMonthFromFields` and `monthDayFromFields`, and that calendar protocol is not part of this model.
- `SpeciesConstructor`, the `_repr_` debug property, `MakeIntrinsicClass` and `bigIntIfAvailable` are left out: they concern subclassing, debugging and the JavaScript object model, not values.
- The coercion of arguments and option bags is not modelled (`ToBigInt`, `ToTemporalTimeZone`, `ToTemporalCalendar`, `NormalizeOptionsObject`, the `ToTemporal…Option` readers, `ToLimitedTemporalDuration`). Options arrive already coerced, as typed `Option` fields, so the errors those readers throw are not modelled.
- `with` does not model parsing a string argument with `RelevantTemporalObjectFromString` (lines 159-162), and its option readers are not modelled either.
- The helpers of `ecmascript.mjs` and of the time-zone and calendar classes are parameters in `Collaborators` and are not part of this model. They are `RejectInstantRange`'s bounds, `GetTemporalDateTimeFor`, `GetOffsetStringFor`, `TimeZoneEquals`, `CalendarEquals`, `TimeZoneCompare`, `CalendarCompare`, the calendar getters, `ToTemporalZonedDateTime` for non-ZonedDateTime values, `RoundDateTime`, `ISOYearString`, `ISODateTimePartString` and `FormatSecondsStringPart`.
- Serialization.CalendarAnnotation: `FormatCalendarAnnotation` is not part of this model; it is written here after its documented format (`[u-ca=<id>]`, left out for `never` and for `auto` with the ISO 8601 calendar).
- Units.RoundToIncrement: `RoundNumberToIncrement` is not part of this model. This function is a reference meaning of the rounding modes (nearest breaks ties away from zero), used to justify negating the mode in `since`; the actual rounding of `toString` goes through the `roundDateTime` collaborator.
- Validation.UntilRequest: does not check the rounding increment; `ToTemporalDateTimeRoundingIncrement` is not part of this model, so the given increment (default 1) is passed through.
- Validation.SinceRequest: does not check the rounding increment, for the same reason as UntilRequest.
- Validation.RoundRequestFor: `ToTemporalRoundingIncrement` is not part of this model. Its `false` argument (line 267) is read as excluding the maximum itself: the accepted range is 1 to one less than the maximum (1 to 1 for days), and the increment must also divide the maximum.
- ZonedDateTimes.EpochSeconds and ZonedDateTimes.EpochMilliseconds return exact integers; the conversion to a JavaScript Number is justified by ZonedDateTimes.EpochMillisecondsIsSafeInteger rather than modelled.
- Identifiers.CodeUnitCompare compares Dafny characters, which stand for UTF-16 code units; identifiers outside the Basic Multilingual Plane are not modelled.
- ZonedDateTimes.ToZonedDateTime: the conversion collaborator receives `None` for an option the caller did not give and applies the defaults of `ToTemporalZonedDateTime` itself, which is not part of this model. `equals`, `compare`, `until` and `since` give no options (lines 274, 381-382, 211, 232). `from` fills in only the offset default `reject`, because line 374 writes it out; its overflow and disambiguation defaults belong to the option readers and are left to the collaborator as well.
- Error messages are not modelled: an error is only its kind (`TypeError`, `RangeError`, or the plain `Error` of an unimplemented method).
- The civil date-time depends only on the zone and the instant (`isoDateTimeFor`); a time zone object with state that changes between calls is not modelled.
- `with`, `add`, `subtract`, `until`, `since`, `round`, `startOfDay` and `hoursInDay` are modelled as the code has them: validation, then a plain `Error`. The full semantics described for a finished implementation (arithmetic on durations, differences, rounding of the exact time, start of day) are not part of this model.
