/** Clock readings and configured times of day. A reading of
    `datetime.now()` is a day (Python's proleptic day ordinal, `toordinal()`)
    plus the microsecond within that day; a configured `time(h, m, s)` is its
    second of the day, which orders exactly as Python orders `(h, m, s)`. */
module Times {
  import opened Wrappers
  import opened Errors
  import opened Text

  const SecondsPerDay: int := 86400
  const MicrosPerSecond: int := 1_000_000

  /** `time(h, m, s)` as `h * 3600 + m * 60 + s`. */
  type Seconds = t: int | 0 <= t < SecondsPerDay

  type Micros = m: int | 0 <= m < SecondsPerDay * MicrosPerSecond

  /** A `datetime` reading. */
  datatype Clock = Clock(day: int, micros: Micros)

  /** `a < b` on datetimes. */
  predicate Before(a: Clock, b: Clock) {
    a.day < b.day || (a.day == b.day && a.micros < b.micros)
  }

  /** `datetime(now.year, now.month, now.day) + timedelta(days=1)`. */
  function NextMidnight(now: Clock): (r: Clock)
    ensures Before(now, r)
    ensures forall c :: Before(c, r) <==> c.day <= now.day
  {
    Clock(now.day + 1, 0)
  }

  /** `date.isoweekday()` of a day ordinal: ordinal 1 (1 January of year 1)
      is a Monday, and consecutive days cycle through 1..7. */
  function IsoWeekday(day: int): (r: int)
    ensures 1 <= r <= 7
    ensures r == 1 <==> day % 7 == 1
  {
    (day + 6) % 7 + 1
  }

  /** The ISO weekday of the next day follows 1, 2, ..., 7, 1. */
  lemma NextDayWeekday(day: int)
    ensures IsoWeekday(day + 1) == IsoWeekday(day) % 7 + 1
  {
  }

  /** `int(s)` on the digit strings this model admits. */
  function IntOf(s: string): (r: Result<nat, AppError>)
    ensures r.Ok? <==> IsDigits(s)
    ensures r.Ok? ==> r.value == DigitsValue(s)
    ensures r.Err? ==> r.error == NotANumber(s)
  {
    if IsDigits(s) then Ok(DigitsValue(s)) else Err(NotANumber(s))
  }

  /** Component `k` is the first that is not a decimal number. */
  predicate FirstNonDigit(parts: seq<string>, k: int) {
    0 <= k < |parts| && !IsDigits(parts[k]) && forall j :: 0 <= j < k ==> IsDigits(parts[j])
  }

  /** Hour, minute and second read from one to three components, in that
      order; a missing minute or second is 0. */
  function Components(parts: seq<string>): (r: Result<(nat, nat, nat), AppError>)
    requires 1 <= |parts| <= 3
    ensures r.Ok? <==> forall i :: 0 <= i < |parts| ==> IsDigits(parts[i])
    ensures r.Ok? ==> r.value.0 == DigitsValue(parts[0])
    ensures r.Ok? ==> r.value.1 == (if |parts| >= 2 then DigitsValue(parts[1]) else 0)
    ensures r.Ok? ==> r.value.2 == (if |parts| == 3 then DigitsValue(parts[2]) else 0)
    ensures forall k :: FirstNonDigit(parts, k) ==> r == Err(NotANumber(parts[k]))
  {
    var hour :- IntOf(parts[0]);
    var minute :- if |parts| >= 2 then IntOf(parts[1]) else Ok(0);
    var second :- if |parts| == 3 then IntOf(parts[2]) else Ok(0);
    Ok((hour, minute, second))
  }

  /** `time(h, m, s)`: the second of the day, or the first component out of
      range, checked hour first. */
  function TimeOf(h: nat, m: nat, s: nat): (r: Result<Seconds, AppError>)
    ensures r.Ok? <==> h <= 23 && m <= 59 && s <= 59
    ensures r.Ok? ==> r.value == h * 3600 + m * 60 + s
    ensures h > 23 ==> r == Err(HourOutOfRange)
    ensures h <= 23 && m > 59 ==> r == Err(MinuteOutOfRange)
    ensures h <= 23 && m <= 59 && s > 59 ==> r == Err(SecondOutOfRange)
  {
    if h > 23 then Err(HourOutOfRange)
    else if m > 59 then Err(MinuteOutOfRange)
    else if s > 59 then Err(SecondOutOfRange)
    else Ok(h * 3600 + m * 60 + s)
  }

  /** `parse_time`: absent text gives no bound; more than three `:`-separated
      parts also give no bound; otherwise hour, minute and second are read in
      that order (missing ones are 0) and then range-checked in that order. */
  function ParseTime(text: Option<string>): (r: Result<Option<Seconds>, AppError>)
    ensures text.None? ==> r == Ok(None)
    ensures text.Some? && |Split(text.value, ':')| > 3 ==> r == Ok(None)
    ensures r.Err? ==> text.Some? && |Split(text.value, ':')| <= 3
    ensures text.Some? && |Split(text.value, ':')| <= 3 ==>
              var parts := Split(text.value, ':');
              && (forall k :: FirstNonDigit(parts, k) ==> r == Err(NotANumber(parts[k])))
              && ((forall i :: 0 <= i < |parts| ==> IsDigits(parts[i])) ==>
                    var t := TimeOf(DigitsValue(parts[0]),
                                    if |parts| >= 2 then DigitsValue(parts[1]) else 0,
                                    if |parts| == 3 then DigitsValue(parts[2]) else 0);
                    r == if t.Ok? then Ok(Some(t.value)) else Err(t.error))
  {
    if text.None? then Ok(None)
    else
      var parts := Split(text.value, ':');
      if |parts| > 3 then Ok(None)
      else
        var hms :- Components(parts);
        var t :- TimeOf(hms.0, hms.1, hms.2);
        Ok(Some(t))
  }

  /** The first `n` of the spelled-out components `h:m:s`. */
  function TimeText(h: nat, m: nat, s: nat, n: int): (t: string)
    requires 1 <= n <= 3
  {
    Join([NatToDigits(h), NatToDigits(m), NatToDigits(s)][..n], ':')
  }

  /** What `parse_time` gives for `"h"`, `"h:m"` or `"h:m:s"` written in
      decimal: omitted components count as 0, and the first component out
      of range names the error. */
  lemma {:induction false} ParseTimeComponents(h: nat, m: nat, s: nat, n: int)
    requires 1 <= n <= 3
    ensures var m' := if n >= 2 then m else 0;
            var s' := if n == 3 then s else 0;
            ParseTime(Some(TimeText(h, m, s, n))) ==
              if h > 23 then Err(HourOutOfRange)
              else if m' > 59 then Err(MinuteOutOfRange)
              else if s' > 59 then Err(SecondOutOfRange)
              else Ok(Some(h * 3600 + m' * 60 + s'))
  {
    var parts := [NatToDigits(h), NatToDigits(m), NatToDigits(s)][..n];
    forall i | 0 <= i < |parts| ensures ':' !in parts[i] {
      assert IsDigits(parts[i]);
    }
    SplitJoin(parts, ':');
    DigitsRoundTrip(h);
    DigitsRoundTrip(m);
    DigitsRoundTrip(s);
  }

  /** A text of exactly two `:`-separated digit components reads as `h`
      hours and `m` minutes, whatever zero padding the components carry. */
  lemma HourMinuteParts(text: string, hs: string, ms: string)
    requires Split(text, ':') == [hs, ms]
    requires IsDigits(hs) && IsDigits(ms)
    requires DigitsValue(hs) <= 23 && DigitsValue(ms) <= 59
    ensures ParseTime(Some(text)) == Ok(Some(DigitsValue(hs) * 3600 + DigitsValue(ms) * 60))
  {
    var h, m := DigitsValue(hs), DigitsValue(ms);
    var parts := Split(text, ':');
    assert forall i :: 0 <= i < |parts| ==> IsDigits(parts[i]) by {
      assert parts[0] == hs && parts[1] == ms;
    }
    var hms := Components(parts);
    assert hms == Ok((h, m, 0));
    assert TimeOf(h, m, 0) == Ok(h * 3600 + m * 60);
  }

  lemma SplitHourMinute(hs: string, ms: string)
    requires IsDigits(hs) && IsDigits(ms)
    ensures Split(hs + ":" + ms, ':') == [hs, ms]
  {
    assert ':' !in hs by { assert forall i :: 0 <= i < |hs| ==> IsDigit(hs[i]); }
    assert ':' !in ms by { assert forall i :: 0 <= i < |ms| ==> IsDigit(ms[i]); }
    SplitNoSep(ms, ':');
    SplitAfter(hs, ms, ':');
  }

  /** `t.strftime("%H:%M:%S")` without zero padding. */
  function FormatTime(t: Seconds): string {
    TimeText(t / 3600, t / 60 % 60, t % 60, 3)
  }

  /** Every time of day survives being written out and parsed back. */
  lemma TimeRoundTrip(t: Seconds)
    ensures ParseTime(Some(FormatTime(t))) == Ok(Some(t))
  {
    var h, m, sec := t / 3600, t / 60 % 60, t % 60;
    assert h <= 23 && m <= 59 && sec <= 59;
    assert h * 3600 + m * 60 + sec == t by {
      assert t == t / 60 * 60 + sec;
      assert t / 60 == h * 60 + m;
    }
    ParseTimeComponents(h, m, sec, 3);
  }

  /** A bound allows a reading: `start <= now.time()` for a start bound,
      `end >= now.time()` for an end bound. Python compares at microsecond
      precision, so an end bound is met only at the exact start of its
      second, never later within it. */
  predicate StartAllows(start: Seconds, now: Clock) {
    start * MicrosPerSecond <= now.micros
  }

  predicate EndAllows(end: Seconds, now: Clock) {
    end * MicrosPerSecond >= now.micros
  }
}
