/** The command-line helpers of the entry point: reading `-name value`
    arguments and validating the weekday ordinals typed when a new app is
    created (1 is Sunday, 7 is Saturday). Prompts and printing are not
    modelled. */
module Cli {
  import opened Wrappers
  import opened Errors
  import opened Text
  import opened DayOfWeek

  /** Position of the first occurrence of `x` (`list.index`). */
  function IndexOf(s: seq<string>, x: string): (i: nat)
    requires x in s
    ensures i < |s| && s[i] == x
    ensures forall j :: 0 <= j < i ==> s[j] != x
  {
    if s[0] == x then 0 else 1 + IndexOf(s[1..], x)
  }

  /** `get_argument(name)` as written: the guard `len(argv) >= index` also
      admits `index == len(argv)`, so a flag in the last position makes the
      lookup raise. */
  function GetArgument(argv: seq<string>, name: string): (r: Result<Option<string>, AppError>)
    ensures ("-" + name) !in argv ==> r == Ok(None)
    ensures ("-" + name) in argv && IndexOf(argv, "-" + name) + 1 < |argv| ==>
              r == Ok(Some(argv[IndexOf(argv, "-" + name) + 1]))
    ensures ("-" + name) in argv && IndexOf(argv, "-" + name) + 1 == |argv| ==>
              r == Err(IndexOutOfRange)
  {
    var flag := "-" + name;
    if flag !in argv then Ok(None)
    else
      var index := IndexOf(argv, flag) + 1;
      if |argv| >= index >= 0 then
        if index < |argv| then Ok(Some(argv[index])) else Err(IndexOutOfRange)
      else Ok(None)
  }

  /** `get_argument` with the guard `index < len(argv)`: a flag without a
      value reads as absent, and the lookup never raises. */
  function GetArgumentFixed(argv: seq<string>, name: string): (r: Option<string>)
    ensures r.Some? <==> ("-" + name) in argv && IndexOf(argv, "-" + name) + 1 < |argv|
    ensures r.Some? ==> r.value == argv[IndexOf(argv, "-" + name) + 1]
  {
    var flag := "-" + name;
    if flag !in argv then None
    else
      var index := IndexOf(argv, flag) + 1;
      if index < |argv| then Some(argv[index]) else None
  }

  /** The two readings agree except when the flag's first occurrence is the
      last argument, where the original raises. */
  lemma GetArgumentDiscrepancy(argv: seq<string>, name: string)
    ensures GetArgument(argv, name).Ok? ==> GetArgument(argv, name).value == GetArgumentFixed(argv, name)
    ensures GetArgument(argv, name).Err? <==> argv != [] && argv[|argv| - 1] == "-" + name &&
                                              IndexOf(argv, "-" + name) == |argv| - 1
  {
  }

  /** One typed ordinal is acceptable: digits only, between 1 and 7. */
  predicate ValidOrdinal(part: string) {
    IsDigits(part) && 1 <= DigitsValue(part) <= 7
  }

  /** The loop over the typed entries: each must be a valid ordinal and
      becomes `parse(d - 1)`; the first bad entry rejects the whole input. */
  function ReadOrdinals(parts: seq<string>): (r: Option<seq<Day>>)
    ensures r.Some? <==> forall i :: 0 <= i < |parts| ==> ValidOrdinal(parts[i])
    ensures r.Some? ==> |r.value| == |parts| &&
                        forall i :: 0 <= i < |parts| ==> Position(r.value[i]) == DigitsValue(parts[i]) - 1
  {
    if |parts| == 0 then Some([])
    else if !ValidOrdinal(parts[0]) then None
    else
      var day := ParseNumberFixed(DigitsValue(parts[0]) - 1).value;
      var rest := ReadOrdinals(parts[1..]);
      if rest.None? then None else Some([day] + rest.value)
  }

  /** The day validation of `create_config` as written: the check runs only
      when the typed text is empty (`len(inputday) == 0`), where the single
      empty entry is never numeric. So an empty answer is rejected and any
      other answer is accepted as "every day". */
  function DayInputAsWritten(input: string): (r: Option<seq<Day>>)
    ensures input == "" ==> r == None
    ensures input != "" ==> r == Some([])
  {
    var parts := Split(input, ',');
    if |input| == 0 then
      assert parts == [""];
      if |parts| > 7 then None else ReadOrdinals(parts)
    else Some([])
  }

  /** The day validation as the prompt describes it: an empty answer means
      every day; otherwise at most seven comma-separated ordinals 1..7,
      each naming the day at that Sunday-first position. */
  function DayInput(input: string): (r: Option<seq<Day>>)
    ensures input == "" ==> r == Some([])
    ensures input != "" ==>
              (r.Some? <==> |Split(input, ',')| <= 7 &&
                            forall i :: 0 <= i < |Split(input, ',')| ==> ValidOrdinal(Split(input, ',')[i]))
    ensures input != "" && r.Some? ==>
              |r.value| == |Split(input, ',')| &&
              forall i :: 0 <= i < |r.value| ==> Position(r.value[i]) == DigitsValue(Split(input, ',')[i]) - 1
  {
    var parts := Split(input, ',');
    if |input| != 0 then
      if |parts| > 7 then None else ReadOrdinals(parts)
    else Some([])
  }

  /** The ordinal a person types for a day. */
  function OrdinalText(d: Day): (s: string)
    ensures ValidOrdinal(s) && DigitsValue(s) == Position(d) + 1
  {
    DigitsRoundTrip(Position(d) + 1);
    NatToDigits(Position(d) + 1)
  }

  /** Typing the ordinals of up to seven days, comma-separated, gives back
      those days. */
  lemma {:induction false} DayInputRoundTrip(ds: seq<Day>)
    requires 1 <= |ds| <= 7
    ensures DayInput(Join(seq(|ds|, i requires 0 <= i < |ds| => OrdinalText(ds[i])), ',')) == Some(ds)
  {
    var parts := seq(|ds|, i requires 0 <= i < |ds| => OrdinalText(ds[i]));
    forall i | 0 <= i < |parts| ensures ',' !in parts[i] {
      assert IsDigits(parts[i]);
    }
    SplitJoin(parts, ',');
    var input := Join(parts, ',');
    assert input != "" by {
      assert |parts[0]| > 0;
    }
    var r := DayInput(input);
    assert r.Some?;
    forall i | 0 <= i < |ds| ensures r.value[i] == ds[i] {
      assert Position(r.value[i]) == Position(ds[i]);
    }
    assert r.value == ds;
  }

  /** Typing 1 names the same day as the tag "sunday". */
  lemma OrdinalOneIsSunday()
    ensures DayInput("1") == Some([Sunday])
    ensures ParseTag("sunday") == Ok(Sunday)
  {
    SplitNoSep("1", ',');
    assert Split("1", ',') == ["1"];
    assert DigitsValue("1") == 1;
    assert ValidOrdinal("1");
    var r := ReadOrdinals(["1"]);
    assert r.Some? && |r.value| == 1 && Position(r.value[0]) == 0;
    assert r.value == [Sunday];
  }
}
