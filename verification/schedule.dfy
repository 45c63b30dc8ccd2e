/** The eligibility decision `AppController.in_working_time`: crash/exit
    suppression until a stored instant, an allowed-weekday filter (empty
    means every day) and a time-of-day window whose two bounds are each
    optional. The clock reading and the outcome of the weekday lookup are
    parameters. */
module Schedule {
  import opened Wrappers
  import opened Errors
  import opened DayOfWeek
  import opened Times
  import opened Settings

  /** `next_work_date` is set and the reading is still before it. */
  predicate Suppressed(nextWorkDate: Option<Clock>, now: Clock)
    ensures nextWorkDate.None? ==> !Suppressed(nextWorkDate, now)
    ensures nextWorkDate.Some? && nextWorkDate.value.micros == 0 ==>
              (Suppressed(nextWorkDate, now) <==> now.day < nextWorkDate.value.day)
  {
    nextWorkDate.Some? && Before(now, nextWorkDate.value)
  }

  /** Reference meaning of the window: every bound that is present allows
      the reading. */
  predicate WindowOpen(start: Option<Seconds>, end: Option<Seconds>, now: Clock) {
    (start.None? || StartAllows(start.value, now)) && (end.None? || EndAllows(end.value, now))
  }

  /** Python truthiness of a value that is `None`, `True` or `False`. */
  predicate Truthy(v: Option<bool>) {
    v.Some? && v.value
  }

  /** The four-way test on the tri-state `startval` / `endval` (each `None`
      when its bound is absent). */
  function WindowDecision(start: Option<Seconds>, end: Option<Seconds>, now: Clock): (r: bool)
    ensures r <==> WindowOpen(start, end, now)
  {
    var startval: Option<bool> := if start.Some? then Some(StartAllows(start.value, now)) else None;
    var endval: Option<bool> := if end.Some? then Some(EndAllows(end.value, now)) else None;
    if startval.None? && endval.None? then true
    else if Truthy(startval) && Truthy(endval) then true
    else if startval.None? && Truthy(endval) then true
    else Truthy(startval) && endval.None?
  }

  /** `in_working_time`. `today` is what `parse_today()` yields; it is only
      consulted when the allowed-day list is non-empty. */
  function InWorkingTime(c: Config, nextWorkDate: Option<Clock>, now: Clock,
                         today: Result<Day, AppError>): (r: Result<bool, AppError>)
    ensures Suppressed(nextWorkDate, now) ==> r == Ok(false)
    ensures !Suppressed(nextWorkDate, now) && DaysOfWeek(c).Err? ==> r == Err(DaysOfWeek(c).error)
    ensures !Suppressed(nextWorkDate, now) && DaysOfWeek(c).Ok? && |DaysOfWeek(c).value| > 0 ==>
              (today.Err? ==> r == Err(today.error)) &&
              (today.Ok? && today.value !in DaysOfWeek(c).value ==> r == Ok(false))
    ensures r == Ok(true) ==>
              && !Suppressed(nextWorkDate, now)
              && DaysOfWeek(c).Ok?
              && (|DaysOfWeek(c).value| == 0 || (today.Ok? && today.value in DaysOfWeek(c).value))
              && StartWorktime(c).Ok? && EndWorktime(c).Ok?
              && WindowOpen(StartWorktime(c).value, EndWorktime(c).value, now)
    ensures && !Suppressed(nextWorkDate, now)
            && DaysOfWeek(c).Ok?
            && (|DaysOfWeek(c).value| == 0 || (today.Ok? && today.value in DaysOfWeek(c).value))
            ==> (StartWorktime(c).Err? ==> r == Err(StartWorktime(c).error))
                && (StartWorktime(c).Ok? && EndWorktime(c).Err? ==> r == Err(EndWorktime(c).error))
                && (StartWorktime(c).Ok? && EndWorktime(c).Ok? ==>
                      r == Ok(WindowOpen(StartWorktime(c).value, EndWorktime(c).value, now)))
  {
    if Suppressed(nextWorkDate, now) then Ok(false)
    else
      var allowed :- DaysOfWeek(c);
      if |allowed| > 0 && today.Err? then Err(today.error)
      else if |allowed| > 0 && today.value !in allowed then Ok(false)
      else
        var start :- StartWorktime(c);
        var end :- EndWorktime(c);
        Ok(WindowDecision(start, end, now))
  }

  /** With no allowed-day list the weekday is never consulted: any two
      lookup outcomes give the same decision. */
  lemma EmptyDaysIgnoreWeekday(c: Config, nextWorkDate: Option<Clock>, now: Clock,
                               today1: Result<Day, AppError>, today2: Result<Day, AppError>)
    requires DaysOfWeek(c) == Ok([])
    ensures InWorkingTime(c, nextWorkDate, now, today1) == InWorkingTime(c, nextWorkDate, now, today2)
  {
  }

  /** Without time bounds the decision does not depend on the time of day. */
  lemma NoBoundsIgnoreTimeOfDay(c: Config, nextWorkDate: Option<Clock>, now1: Clock, now2: Clock,
                                today: Result<Day, AppError>)
    requires c.startWorktime.None? && c.endWorktime.None?
    requires now1.day == now2.day
    requires nextWorkDate.None? || nextWorkDate.value.micros == 0
    ensures InWorkingTime(c, nextWorkDate, now1, today) == InWorkingTime(c, nextWorkDate, now2, today)
  {
  }

  /** A window whose start lies after its end is never open: windows that
      span midnight are not supported. */
  lemma InvertedWindowNeverOpen(start: Seconds, end: Seconds, now: Clock)
    requires start > end
    ensures !WindowOpen(Some(start), Some(end), now)
  {
  }

  /** A configuration with only the given day list and time bounds. */
  function ScheduleOnly(days: seq<DayEntry>, start: Option<string>, end: Option<string>): Config {
    Config(Some("app"), Some("/bin/app"), Some(ArgList([])), None, None, Some(days), start, end)
  }

  /** A whole hour written "hh:00" reads as that many hours. */
  lemma WholeHourParses(hs: string)
    requires Text.IsDigits(hs) && Text.DigitsValue(hs) <= 23
    ensures Times.ParseTime(Some(hs + ":00")) == Ok(Some(Text.DigitsValue(hs) * 3600))
  {
    assert Text.DigitsValue("00") == 0;
    Times.SplitHourMinute(hs, "00");
    assert ":" + "00" == ":00";
    assert hs + ":" + "00" == hs + (":" + "00");
    Times.HourMinuteParts(hs + ":00", hs, "00");
  }

  /** The office-hours configuration reads as every day, 09:00 to 17:00. */
  lemma OfficeHoursBounds()
    ensures var c := ScheduleOnly([], Some("09:00"), Some("17:00"));
            && DaysOfWeek(c) == Ok([])
            && StartWorktime(c) == Ok(Some(9 * 3600))
            && EndWorktime(c) == Ok(Some(17 * 3600))
  {
    assert Text.DigitsValue("09") == 9;
    assert Text.DigitsValue("17") == 17;
    assert "09" + ":00" == "09:00";
    assert "17" + ":00" == "17:00";
    WholeHourParses("09");
    WholeHourParses("17");
  }

  /** 09:00 to 17:00 on every day: open at 10:00, closed at 20:00. */
  lemma OfficeHoursScenario(day: int, today: Result<Day, AppError>)
    ensures InWorkingTime(ScheduleOnly([], Some("09:00"), Some("17:00")), None,
                          Clock(day, 10 * 3600 * MicrosPerSecond), today) == Ok(true)
    ensures InWorkingTime(ScheduleOnly([], Some("09:00"), Some("17:00")), None,
                          Clock(day, 20 * 3600 * MicrosPerSecond), today) == Ok(false)
  {
    OfficeHoursBounds();
  }

  /** A Monday-only app on a Tuesday stays off at any time. */
  lemma MondayOnlyOnTuesday(now: Clock)
    ensures InWorkingTime(ScheduleOnly([DayTag("monday")], None, None), None, now, Ok(Tuesday)) == Ok(false)
  {
  }

  /** On a Sunday every app with a non-empty day list fails the decision,
      because the weekday lookup raises. */
  lemma SundayFailsWithDays(c: Config, nextWorkDate: Option<Clock>, now: Clock)
    requires !Suppressed(nextWorkDate, now)
    requires DaysOfWeek(c).Ok? && |DaysOfWeek(c).value| > 0
    ensures InWorkingTime(c, nextWorkDate, now, ParseToday(7)) == Err(IndexOutOfRange)
  {
  }
}
