/** `zonedDateTimeToString` and the methods built on it (`toString`, `toJSON`).
    The layout is the date-time format of ISO 8601 as profiled by section 5.6 of
    RFC 3339, followed by the numeric offset and the bracketed time-zone and
    calendar annotations of RFC 9557. A reader that splits off the bracketed
    annotations recovers the zone and calendar identifiers. */
module Serialization {

  import opened Wrappers
  import opened Units
  import opened Slots
  import opened ZonedDateTimes

  datatype CalendarName = CalendarAuto | CalendarAlways | CalendarNever

  datatype TimeZoneName = TimeZoneAuto | TimeZoneNever

  datatype OffsetDisplay = OffsetAuto | OffsetNever

  /** Rounding applied to the civil date-time before it is formatted. */
  datatype Rounding = Rounding(unit: TimeUnit, increment: int, mode: RoundingMode)

  /** FormatCalendarAnnotation: `[u-ca=<id>]`, left out for `never`, and for `auto`
      when the calendar is the default ISO 8601 calendar. */
  function CalendarAnnotation(calendar: Calendar, show: CalendarName): string {
    if show == CalendarNever || (show == CalendarAuto && calendar.id == ISO8601.id) then ""
    else "[u-ca=" + calendar.id + "]"
  }

  /** The civil date-time to format: rounded when rounding options are given. */
  function FieldsToFormat(env: Collaborators, z: ZonedDateTime, rounding: Option<Rounding>): IsoDateTime {
    var iso := DateTime(env, z).iso;
    match rounding
    case None => iso
    case Some(o) => env.roundDateTime(iso, o.increment, o.unit, o.mode)
  }

  /** `year-month-dayThour:minute` followed by the seconds part. */
  function DateTimeHead(env: Collaborators, iso: IsoDateTime, precision: Precision): string {
    env.isoYearString(iso.year) + "-" + env.isoDateTimePartString(iso.month) + "-"
      + env.isoDateTimePartString(iso.day) + "T" + env.isoDateTimePartString(iso.hour) + ":"
      + env.isoDateTimePartString(iso.minute)
      + env.formatSecondsStringPart(iso.second, iso.millisecond, iso.microsecond, iso.nanosecond, precision)
  }

  /** The offset string, unless the offset is not to be shown. */
  function OffsetPart(env: Collaborators, z: ZonedDateTime, show: OffsetDisplay): string {
    if show != OffsetNever then env.offsetStringFor(z.timeZone, z.epochNanoseconds) else ""
  }

  /** `[<zone id>]`, unless the zone is not to be shown. */
  function TimeZonePart(z: ZonedDateTime, show: TimeZoneName): string {
    if show != TimeZoneNever then "[" + z.timeZone.id + "]" else ""
  }

  /** `zonedDateTimeToString(zdt, precision, showCalendar, showTimeZone, showOffset, options)`.
      The offset is that of the stored instant, even when rounding moved the
      civil date-time. */
  function ZonedDateTimeToString(env: Collaborators, z: ZonedDateTime, precision: Precision,
                                 showCalendar: CalendarName, showTimeZone: TimeZoneName,
                                 showOffset: OffsetDisplay, rounding: Option<Rounding>): (s: string)
    ensures var head := DateTimeHead(env, FieldsToFormat(env, z, rounding), precision);
      |head| <= |s| && s[..|head|] == head
    ensures var tail := CalendarAnnotation(z.calendar, showCalendar);
      |tail| <= |s| && s[|s| - |tail|..] == tail
  {
    var head := DateTimeHead(env, FieldsToFormat(env, z, rounding), precision);
    var middle := OffsetPart(env, z, showOffset) + TimeZonePart(z, showTimeZone);
    var tail := CalendarAnnotation(z.calendar, showCalendar);
    assert (head + middle + tail)[..|head|] == head;
    assert (head + middle + tail)[|head + middle|..] == tail;
    head + middle + tail
  }

  /** What ToSecondsStringPrecision settles on: the precision of the seconds part
      and the unit and increment of the rounding that goes with it. */
  datatype SecondsStringPrecision = SecondsStringPrecision(precision: Precision, unit: TimeUnit, increment: int)

  /** The options of `toString`, already coerced; `None` is an option left out. */
  datatype ToStringOptions = ToStringOptions(
    seconds: SecondsStringPrecision,
    roundingMode: Option<RoundingMode>,
    calendarName: Option<CalendarName>,
    timeZoneName: Option<TimeZoneName>,
    offset: Option<OffsetDisplay>)

  /** `toString(options)`: always rounds, by default with mode `trunc`; every
      annotation is shown by default. */
  function ToString(env: Collaborators, recv: Value, options: ToStringOptions): (r: Result<string>)
    ensures !recv.ZdtValue? ==> r == Err(TypeError)
    ensures recv.ZdtValue? ==> r == Ok(ZonedDateTimeToString(
      env, recv.zdt, options.seconds.precision,
      options.calendarName.GetOr(CalendarAuto), options.timeZoneName.GetOr(TimeZoneAuto),
      options.offset.GetOr(OffsetAuto),
      Some(Rounding(options.seconds.unit, options.seconds.increment, options.roundingMode.GetOr(Trunc)))))
  {
    var z :- Receiver(recv);
    var mode := options.roundingMode.GetOr(Trunc);
    Ok(ZonedDateTimeToString(
      env, z, options.seconds.precision,
      options.calendarName.GetOr(CalendarAuto), options.timeZoneName.GetOr(TimeZoneAuto),
      options.offset.GetOr(OffsetAuto),
      Some(Rounding(options.seconds.unit, options.seconds.increment, mode))))
  }

  /** Leaving the rounding mode out of `toString` is the same as asking for `trunc`. */
  lemma ToStringTruncatesByDefault(env: Collaborators, recv: Value, options: ToStringOptions)
    ensures ToString(env, recv, options.(roundingMode := None)) == ToString(env, recv, options.(roundingMode := Some(Trunc)))
  {
  }

  /** `toJSON()`: precision `auto`, every annotation `auto`, and no rounding. */
  function ToJSON(env: Collaborators, recv: Value): (r: Result<string>)
    ensures !recv.ZdtValue? ==> r == Err(TypeError)
    ensures recv.ZdtValue? ==>
      r == Ok(ZonedDateTimeToString(env, recv.zdt, AutoPrecision, CalendarAuto, TimeZoneAuto, OffsetAuto, None))
  {
    var z :- Receiver(recv);
    Ok(ZonedDateTimeToString(env, z, AutoPrecision, CalendarAuto, TimeZoneAuto, OffsetAuto, None))
  }

  /** `toJSON()` gives what `toString()` gives with default options, as long as
      rounding to one nanosecond leaves the civil date-time as it is. */
  lemma ToJSONIsDefaultToString(env: Collaborators, recv: Value)
    requires recv.ZdtValue?
    requires var iso := DateTime(env, recv.zdt).iso; env.roundDateTime(iso, 1, Nanosecond, Trunc) == iso
    ensures ToJSON(env, recv) ==
      ToString(env, recv, ToStringOptions(SecondsStringPrecision(AutoPrecision, Nanosecond, 1), None, None, None, None))
  {
  }

  /** Hiding the offset removes exactly the offset string, right after the date-time. */
  lemma OffsetFollowsDateTime(env: Collaborators, z: ZonedDateTime, precision: Precision,
                              showCalendar: CalendarName, showTimeZone: TimeZoneName, rounding: Option<Rounding>)
    ensures var head := DateTimeHead(env, FieldsToFormat(env, z, rounding), precision);
      var shown := ZonedDateTimeToString(env, z, precision, showCalendar, showTimeZone, OffsetAuto, rounding);
      var hidden := ZonedDateTimeToString(env, z, precision, showCalendar, showTimeZone, OffsetNever, rounding);
      shown == head + env.offsetStringFor(z.timeZone, z.epochNanoseconds) + hidden[|head|..]
  {
    var head := DateTimeHead(env, FieldsToFormat(env, z, rounding), precision);
    var offset := env.offsetStringFor(z.timeZone, z.epochNanoseconds);
    var rest := TimeZonePart(z, showTimeZone) + CalendarAnnotation(z.calendar, showCalendar);
    OutputPieces(env, z, precision, showCalendar, showTimeZone, OffsetAuto, rounding);
    OutputPieces(env, z, precision, showCalendar, showTimeZone, OffsetNever, rounding);
    assert (head + "") + rest == head + rest;
    assert (head + rest)[|head|..] == rest;
  }

  // ---------------------------------------------------------------------------
  // Reading the annotations back

  predicate NoBrackets(s: string) {
    forall i :: 0 <= i < |s| ==> s[i] != '[' && s[i] != ']'
  }

  /** Index of the first `c` in `s`, or `|s|` when there is none. */
  function IndexOf(s: string, c: char): (i: nat)
    ensures i <= |s|
    ensures forall k :: 0 <= k < i ==> s[k] != c
    ensures i < |s| ==> s[i] == c
  {
    if s == [] || s[0] == c then 0 else 1 + IndexOf(s[1..], c)
  }

  /** The contents of a run of bracketed annotations `[a][b]…`; `None` when the
      text is not such a run. */
  function Annotations(s: string): (r: Option<seq<string>>)
    decreases |s|
  {
    if s == [] then Some([])
    else if s[0] != '[' then None
    else
      var j := 1 + IndexOf(s[1..], ']');
      if j == |s| then None
      else
        match Annotations(s[j + 1..])
        case None => None
        case Some(rest) => Some([s[1..j]] + rest)
  }

  /** Splits a string into the text before its first `[` and the annotations after it. */
  function SplitAnnotations(s: string): (string, Option<seq<string>>) {
    var i := IndexOf(s, '[');
    (s[..i], Annotations(s[i..]))
  }

  lemma IndexOfAfterPrefix(x: string, t: string, c: char)
    requires forall k :: 0 <= k < |x| ==> x[k] != c
    requires t == [] || t[0] == c
    ensures IndexOf(x + t, c) == |x|
  {
    var s := x + t;
    forall k | 0 <= k < |x|
      ensures s[k] != c
    {
      assert s[k] == x[k];
    }
    if t != [] {
      assert s[|x|] == c;
    }
  }

  lemma AnnotationsCons(x: string, t: string)
    requires NoBrackets(x)
    ensures Annotations("[" + x + "]" + t) ==
      match Annotations(t)
      case None => None
      case Some(rest) => Some([x] + rest)
  {
    var s := "[" + x + "]" + t;
    assert s[1..] == x + ("]" + t);
    IndexOfAfterPrefix(x, "]" + t, ']');
    assert s[1..|x| + 1] == x;
    assert s[|x| + 2..] == t;
  }

  /** The annotations a string carries for a zone and a calendar display choice. */
  function ExpectedAnnotations(z: ZonedDateTime, showTimeZone: TimeZoneName, showCalendar: CalendarName): seq<string> {
    (if showTimeZone != TimeZoneNever then [z.timeZone.id] else [])
      + (if CalendarAnnotation(z.calendar, showCalendar) != "" then ["u-ca=" + z.calendar.id] else [])
  }

  /** The calendar annotation reads back as the `u-ca=` annotation, or as nothing. */
  lemma CalendarAnnotationReadsBack(calendar: Calendar, show: CalendarName)
    requires NoBrackets(calendar.id)
    ensures Annotations(CalendarAnnotation(calendar, show)) ==
      Some(if CalendarAnnotation(calendar, show) != "" then ["u-ca=" + calendar.id] else [])
  {
    var cal := CalendarAnnotation(calendar, show);
    if cal != "" {
      var calId := "u-ca=" + calendar.id;
      assert NoBrackets(calId) by {
        forall k | 0 <= k < |calId|
          ensures calId[k] != '[' && calId[k] != ']'
        {
          if k >= 5 {
            assert calId[k] == calendar.id[k - 5];
          }
        }
      }
      assert cal == "[" + calId + "]" + "";
      AnnotationsCons(calId, "");
      assert [calId] + [] == [calId];
    }
  }

  /** The two trailing annotations read back as the expected list. */
  lemma TrailingAnnotationsReadBack(z: ZonedDateTime, showTimeZone: TimeZoneName, showCalendar: CalendarName)
    requires NoBrackets(z.timeZone.id) && NoBrackets(z.calendar.id)
    ensures Annotations(TimeZonePart(z, showTimeZone) + CalendarAnnotation(z.calendar, showCalendar))
      == Some(ExpectedAnnotations(z, showTimeZone, showCalendar))
  {
    var cal := CalendarAnnotation(z.calendar, showCalendar);
    CalendarAnnotationReadsBack(z.calendar, showCalendar);
    if showTimeZone != TimeZoneNever {
      assert TimeZonePart(z, showTimeZone) + cal == "[" + z.timeZone.id + "]" + cal;
      AnnotationsCons(z.timeZone.id, cal);
    } else {
      assert TimeZonePart(z, showTimeZone) + cal == cal;
      var calAnnotations := if cal != "" then ["u-ca=" + z.calendar.id] else [];
      assert ExpectedAnnotations(z, showTimeZone, showCalendar) == [] + calAnnotations;
      assert [] + calAnnotations == calAnnotations;
    }
  }

  /** A bracket-free text followed by annotations splits at its end. */
  lemma SplitAfterText(text: string, trailing: string)
    requires NoBrackets(text)
    requires trailing == [] || trailing[0] == '['
    ensures SplitAnnotations(text + trailing) == (text, Annotations(trailing))
  {
    IndexOfAfterPrefix(text, trailing, '[');
    assert (text + trailing)[..|text|] == text;
    assert (text + trailing)[|text|..] == trailing;
  }

  /** The output is the date-time with its offset followed by the annotations. */
  lemma OutputPieces(env: Collaborators, z: ZonedDateTime, precision: Precision,
                     showCalendar: CalendarName, showTimeZone: TimeZoneName,
                     showOffset: OffsetDisplay, rounding: Option<Rounding>)
    ensures ZonedDateTimeToString(env, z, precision, showCalendar, showTimeZone, showOffset, rounding)
      == (DateTimeHead(env, FieldsToFormat(env, z, rounding), precision) + OffsetPart(env, z, showOffset))
         + (TimeZonePart(z, showTimeZone) + CalendarAnnotation(z.calendar, showCalendar))
  {
  }

  /** Splitting the output at its first `[` gives the date-time with its offset,
      then exactly the zone annotation and the calendar annotation that were asked for. */
  lemma AnnotationsRoundTrip(env: Collaborators, z: ZonedDateTime, precision: Precision,
                              showCalendar: CalendarName, showTimeZone: TimeZoneName,
                              showOffset: OffsetDisplay, rounding: Option<Rounding>)
    requires NoBrackets(DateTimeHead(env, FieldsToFormat(env, z, rounding), precision) + OffsetPart(env, z, showOffset))
    requires NoBrackets(z.timeZone.id) && NoBrackets(z.calendar.id)
    ensures SplitAnnotations(ZonedDateTimeToString(env, z, precision, showCalendar, showTimeZone, showOffset, rounding))
      == (DateTimeHead(env, FieldsToFormat(env, z, rounding), precision) + OffsetPart(env, z, showOffset),
          Some(ExpectedAnnotations(z, showTimeZone, showCalendar)))
  {
    var body := DateTimeHead(env, FieldsToFormat(env, z, rounding), precision) + OffsetPart(env, z, showOffset);
    var trailing := TimeZonePart(z, showTimeZone) + CalendarAnnotation(z.calendar, showCalendar);
    OutputPieces(env, z, precision, showCalendar, showTimeZone, showOffset, rounding);
    assert trailing == [] || trailing[0] == '[';
    SplitAfterText(body, trailing);
    TrailingAnnotationsReadBack(z, showTimeZone, showCalendar);
  }

  function StartsWith(s: string, prefix: string): bool {
    |prefix| <= |s| && s[..|prefix|] == prefix
  }

  /** The zone identifier a reader takes from the annotations: the first one, when
      it is not a calendar annotation. */
  function AnnotatedTimeZone(annotations: seq<string>): Option<string> {
    if annotations != [] && !StartsWith(annotations[0], "u-ca=") then Some(annotations[0]) else None
  }

  /** The calendar identifier a reader takes from the annotations: that of the
      last `u-ca=` annotation, the ISO 8601 calendar when there is none. */
  function AnnotatedCalendar(annotations: seq<string>): string
    decreases |annotations|
  {
    if annotations == [] then ISO8601.id
    else
      var last := annotations[|annotations| - 1];
      if StartsWith(last, "u-ca=") then last[5..] else AnnotatedCalendar(annotations[..|annotations| - 1])
  }

  /** With the zone shown and the calendar not suppressed, the zone and calendar
      identifiers are read back unchanged from the string: the identifier half of
      the round trip through `from`. */
  lemma IdentifiersRoundTrip(env: Collaborators, z: ZonedDateTime, precision: Precision,
                             showCalendar: CalendarName, showOffset: OffsetDisplay, rounding: Option<Rounding>)
    requires showCalendar != CalendarNever
    requires NoBrackets(DateTimeHead(env, FieldsToFormat(env, z, rounding), precision) + OffsetPart(env, z, showOffset))
    requires NoBrackets(z.timeZone.id) && NoBrackets(z.calendar.id)
    requires !StartsWith(z.timeZone.id, "u-ca=")
    ensures var annotations := SplitAnnotations(
        ZonedDateTimeToString(env, z, precision, showCalendar, TimeZoneAuto, showOffset, rounding)).1;
      && annotations.Some?
      && AnnotatedTimeZone(annotations.value) == Some(z.timeZone.id)
      && AnnotatedCalendar(annotations.value) == z.calendar.id
  {
    AnnotationsRoundTrip(env, z, precision, showCalendar, TimeZoneAuto, showOffset, rounding);
    var annotations := ExpectedAnnotations(z, TimeZoneAuto, showCalendar);
    var calId := "u-ca=" + z.calendar.id;
    assert StartsWith(calId, "u-ca=") && calId[5..] == z.calendar.id;
    if CalendarAnnotation(z.calendar, showCalendar) == "" {
      assert annotations == [z.timeZone.id];
      assert AnnotatedCalendar(annotations[..0]) == ISO8601.id;
    } else {
      assert annotations == [z.timeZone.id, calId];
    }
  }
}
