/** The weekday enumeration and its parsers: a day is written in a
    configuration either as its lower-case tag or as a zero-based position
    in the Sunday-first declaration order. */
module DayOfWeek {
  import opened Wrappers
  import opened Errors

  /** The seven members, in declaration order. */
  datatype Day = Sunday | Monday | Tuesday | Wednesday | Thursday | Friday | Saturday

  /** A weekday as it appears in a decoded configuration: a JSON string, a
      JSON integer (JSON booleans arrive here as 0 and 1, as Python treats
      `bool` as `int`), or any other JSON value. */
  datatype DayEntry = DayTag(tag: string) | DayNumber(n: int) | DayOther

  /** The member's name, which is also its configuration tag. */
  function Name(d: Day): string {
    match d
    case Sunday => "sunday"
    case Monday => "monday"
    case Tuesday => "tuesday"
    case Wednesday => "wednesday"
    case Thursday => "thursday"
    case Friday => "friday"
    case Saturday => "saturday"
  }

  /** Zero-based position in declaration order. */
  function Position(d: Day): nat {
    match d
    case Sunday => 0
    case Monday => 1
    case Tuesday => 2
    case Wednesday => 3
    case Thursday => 4
    case Friday => 5
    case Saturday => 6
  }

  /** ISO 8601 weekday number (section 3.2.2 of ISO 8601): Monday is 1,
      Sunday is 7. */
  function IsoNumber(d: Day): int {
    if d == Sunday then 7 else Position(d)
  }

  /** `DayOfWeek.all()`: every member exactly once, in declaration order. */
  function All(): (r: seq<Day>)
    ensures |r| == 7
    ensures forall i :: 0 <= i < |r| ==> Position(r[i]) == i
    ensures forall d :: Position(d) < |r| && r[Position(d)] == d
  {
    [Sunday, Monday, Tuesday, Wednesday, Thursday, Friday, Saturday]
  }

  /** Two days are equal exactly when their names are (the enum's `__eq__`). */
  lemma NamesIdentify(a: Day, b: Day)
    ensures Name(a) == Name(b) <==> a == b
  {
  }

  /** Lookup of a day by its tag, in place of evaluating `DayOfWeek.<tag>`:
      succeeds exactly on the seven names. */
  function ParseTag(s: string): (r: Result<Day, AppError>)
    ensures r.Ok? ==> Name(r.value) == s
    ensures r.Err? ==> r.error == UnknownDayTag(s) && forall d: Day :: Name(d) != s
  {
    if s == "sunday" then Ok(Sunday)
    else if s == "monday" then Ok(Monday)
    else if s == "tuesday" then Ok(Tuesday)
    else if s == "wednesday" then Ok(Wednesday)
    else if s == "thursday" then Ok(Thursday)
    else if s == "friday" then Ok(Friday)
    else if s == "saturday" then Ok(Saturday)
    else
      assert forall d: Day :: Name(d) != s by {
        forall d: Day ensures Name(d) != s { }
      }
      Err(UnknownDayTag(s))
  }

  /** Parsing a day's own tag gives the day back. */
  lemma TagRoundTrip(d: Day)
    ensures ParseTag(Name(d)) == Ok(d)
  {
    NamesIdentify(d, ParseTag(Name(d)).value);
  }

  /** `parse` on an integer as written: the guard `0 <= v <= len(days)`
      also admits 7, which then indexes one past the seven-element list. */
  function ParseNumber(v: int): (r: Result<Day, AppError>)
    ensures 0 <= v < 7 ==> r.Ok? && Position(r.value) == v
    ensures v == 7 ==> r == Err(IndexOutOfRange)
    ensures (v < 0 || v > 7) ==> r == Err(InvalidDay)
  {
    var days := All();
    if 0 <= v <= |days| then
      if v < |days| then Ok(days[v]) else Err(IndexOutOfRange)
    else Err(InvalidDay)
  }

  /** `parse` with the guard the error message implies (`v < len(days)`):
      every out-of-range integer gives "DayOfWeek inválido!". */
  function ParseNumberFixed(v: int): (r: Result<Day, AppError>)
    ensures r.Ok? <==> 0 <= v < 7
    ensures r.Ok? ==> Position(r.value) == v
    ensures r.Err? ==> r.error == InvalidDay
  {
    var days := All();
    if 0 <= v < |days| then Ok(days[v]) else Err(InvalidDay)
  }

  /** The two integer parsers differ on exactly one input, 7. */
  lemma ParseNumberDiscrepancy(v: int)
    ensures ParseNumber(v) != ParseNumberFixed(v) <==> v == 7
  {
  }

  /** `parse(value)` for any configuration entry, with the corrected
      integer guard: a tag names the day it spells, an integer the day at
      that zero-based position, and everything else is invalid. */
  function Parse(v: DayEntry): (r: Result<Day, AppError>)
    ensures r.Ok? <==> (v.DayTag? && exists d: Day :: Name(d) == v.tag) || (v.DayNumber? && 0 <= v.n < 7)
    ensures r.Ok? && v.DayTag? ==> Name(r.value) == v.tag
    ensures r.Ok? && v.DayNumber? ==> Position(r.value) == v.n
    ensures r.Err? && v.DayTag? ==> r.error == UnknownDayTag(v.tag)
    ensures r.Err? && !v.DayTag? ==> r.error == InvalidDay
  {
    match v
    case DayTag(s) =>
      var r := ParseTag(s);
      assert r.Ok? ==> Name(r.value) == s;
      r
    case DayNumber(n) => ParseNumberFixed(n)
    case DayOther => Err(InvalidDay)
  }

  /** `parse_today`: the ISO weekday number is fed to the zero-based
      Sunday-first parser, so Monday to Saturday come out right and Sunday
      (7) falls one past the end of the list. */
  function ParseToday(iso: int): (r: Result<Day, AppError>)
    requires 1 <= iso <= 7
    ensures iso < 7 ==> r.Ok? && IsoNumber(r.value) == iso
    ensures iso == 7 ==> r == Err(IndexOutOfRange)
  {
    ParseNumber(iso)
  }

  /** On Sundays the weekday lookup raises instead of naming Sunday. */
  lemma SundayTodayFails()
    ensures ParseToday(IsoNumber(Sunday)) == Err(IndexOutOfRange)
    ensures forall d: Day :: d != Sunday ==> ParseToday(IsoNumber(d)) == Ok(d)
  {
    forall d: Day | d != Sunday
      ensures ParseToday(IsoNumber(d)) == Ok(d)
    {
      var r := ParseToday(IsoNumber(d));
      assert IsoNumber(r.value) == IsoNumber(d);
    }
  }

  /** `parse_today` with the ISO number reduced modulo 7 first, so Sunday
      maps to position 0. */
  function ParseTodayFixed(iso: int): (r: Result<Day, AppError>)
    requires 1 <= iso <= 7
    ensures r.Ok? && IsoNumber(r.value) == iso
  {
    ParseNumberFixed(iso % 7)
  }

  /** The corrected lookup names every day, Sunday included. */
  lemma {:induction false} TodayFixedRoundTrip(d: Day)
    ensures ParseTodayFixed(IsoNumber(d)) == Ok(d)
  {
    var r := ParseTodayFixed(IsoNumber(d));
    assert IsoNumber(r.value) == IsoNumber(d);
  }
}
