/** One app's configuration as decoded from its JSON file
    (`SettingsController`): each key is either present with a value or
    absent, and the accessors supply the program's defaults for absent keys. */
module Settings {
  import opened Wrappers
  import opened Errors
  import opened DayOfWeek
  import Times

  /** The JSON value under `args`: a list of strings, a string (which
      `list.extend` spreads into its characters), or a scalar, which cannot
      extend a list. */
  datatype ArgsValue = ArgList(items: seq<string>) | ArgString(text: string) | ArgScalar

  datatype Config = Config(
    name: Option<string>,
    program: Option<string>,
    args: Option<ArgsValue>,
    enabled: Option<bool>,
    listenProcess: Option<bool>,
    days: Option<seq<DayEntry>>,
    startWorktime: Option<string>,
    endWorktime: Option<string>)

  /** `SettingsController.get(key, default)`. */
  function Get<T>(field: Option<T>, default: T): (r: T)
    ensures field.Some? ==> r == field.value
    ensures field.None? ==> r == default
  {
    field.GetOr(default)
  }

  /** `enabled`, true unless the configuration says otherwise. */
  function Enabled(c: Config): (r: bool)
    ensures c.enabled.None? ==> r
    ensures c.enabled.Some? ==> r == c.enabled.value
  {
    Get(c.enabled, true)
  }

  /** `listen_process`, false unless the configuration says otherwise. */
  function ListenProcess(c: Config): (r: bool)
    ensures c.listenProcess.None? ==> !r
    ensures c.listenProcess.Some? ==> r == c.listenProcess.value
  {
    Get(c.listenProcess, false)
  }

  /** `data['name']`, which raises when the key is absent. */
  function AppName(c: Config): (r: Result<string, AppError>)
    ensures r.Ok? <==> c.name.Some?
    ensures r.Ok? ==> r.value == c.name.value
    ensures r.Err? ==> r.error == KeyMissing("name")
  {
    if c.name.Some? then Ok(c.name.value) else Err(KeyMissing("name"))
  }

  /** `[program] + args`, the argument vector `start()` hands to the OS:
      both keys are required, and a scalar `args` cannot extend the list. */
  function Argv(c: Config): (r: Result<seq<string>, AppError>)
    ensures r.Ok? <==> c.program.Some? && c.args.Some? && !c.args.value.ArgScalar?
    ensures r.Ok? ==> |r.value| >= 1 && r.value[0] == c.program.value
    ensures r.Ok? && c.args.value.ArgList? ==> r.value[1..] == c.args.value.items
    ensures r.Ok? && c.args.value.ArgString? ==>
              |r.value| == |c.args.value.text| + 1 &&
              forall i :: 1 <= i < |r.value| ==> r.value[i] == [c.args.value.text[i - 1]]
    ensures c.program.None? ==> r == Err(KeyMissing("program"))
    ensures c.program.Some? && c.args.None? ==> r == Err(KeyMissing("args"))
    ensures c.program.Some? && c.args == Some(ArgScalar) ==> r == Err(ArgsNotIterable)
  {
    if c.program.None? then Err(KeyMissing("program"))
    else if c.args.None? then Err(KeyMissing("args"))
    else
      match c.args.value
      case ArgList(items) => Ok([c.program.value] + items)
      case ArgString(text) => Ok([c.program.value] + seq(|text|, i requires 0 <= i < |text| => [text[i]]))
      case ArgScalar => Err(ArgsNotIterable)
  }

  /** `[parse(day) for day in entries]`: every entry parsed in order, the
      first failure raised. */
  function ParseAll(entries: seq<DayEntry>): (r: Result<seq<Day>, AppError>)
    ensures r.Ok? ==> |r.value| == |entries| &&
                      forall i :: 0 <= i < |entries| ==> Parse(entries[i]) == Ok(r.value[i])
    ensures r.Err? ==> exists i :: 0 <= i < |entries| && Parse(entries[i]) == Err(r.error) &&
                                   forall j :: 0 <= j < i ==> Parse(entries[j]).Ok?
  {
    if |entries| == 0 then Ok([])
    else
      var first :- Parse(entries[0]);
      var rest := ParseAll(entries[1..]);
      if rest.Err? then
        assert forall i :: 0 < i < |entries| ==> entries[1..][i - 1] == entries[i];
        Err(rest.error)
      else Ok([first] + rest.value)
  }

  /** `days_of_week()`: no `days` key means the empty list. */
  function DaysOfWeek(c: Config): (r: Result<seq<Day>, AppError>)
    ensures c.days.None? ==> r == Ok([])
    ensures c.days.Some? ==> r == ParseAll(c.days.value)
  {
    if c.days.None? then Ok([]) else ParseAll(c.days.value)
  }

  /** `start_worktime` and `end_worktime`. */
  function StartWorktime(c: Config): (r: Result<Option<Times.Seconds>, AppError>)
    ensures c.startWorktime.None? ==> r == Ok(None)
    ensures r.Err? || (r.Ok? && r.value.Some?) ==> c.startWorktime.Some?
    ensures c.startWorktime.Some? ==> r == Times.ParseTime(Some(c.startWorktime.value))
  {
    Times.ParseTime(c.startWorktime)
  }

  function EndWorktime(c: Config): (r: Result<Option<Times.Seconds>, AppError>)
    ensures c.endWorktime.None? ==> r == Ok(None)
    ensures r.Err? || (r.Ok? && r.value.Some?) ==> c.endWorktime.Some?
    ensures c.endWorktime.Some? ==> r == Times.ParseTime(Some(c.endWorktime.value))
  {
    Times.ParseTime(c.endWorktime)
  }

  /** Absent keys take the program's defaults: enabled, not listening, every
      day, no time bounds. */
  lemma DefaultsOfMissingKeys(c: Config)
    ensures c.enabled.None? ==> Enabled(c)
    ensures c.listenProcess.None? ==> !ListenProcess(c)
    ensures c.days.None? ==> DaysOfWeek(c) == Ok([])
    ensures c.startWorktime.None? ==> StartWorktime(c) == Ok(None)
    ensures c.endWorktime.None? ==> EndWorktime(c) == Ok(None)
    ensures c.enabled.Some? ==> Enabled(c) == c.enabled.value
    ensures c.listenProcess.Some? ==> ListenProcess(c) == c.listenProcess.value
  {
  }

  /** `[day.name for day in days]`, the way days are written to a new
      configuration. */
  function TagEntries(ds: seq<Day>): (r: seq<DayEntry>)
    ensures |r| == |ds|
    ensures forall i :: 0 <= i < |ds| ==> r[i] == DayTag(Name(ds[i]))
  {
    seq(|ds|, i requires 0 <= i < |ds| => DayTag(Name(ds[i])))
  }

  /** Days written by their tags read back as the same days. */
  lemma {:induction false} TagsReadBack(ds: seq<Day>)
    ensures ParseAll(TagEntries(ds)) == Ok(ds)
  {
    var entries := TagEntries(ds);
    var r := ParseAll(entries);
    if r.Err? {
      var i :| 0 <= i < |entries| && Parse(entries[i]) == Err(r.error);
      TagRoundTrip(ds[i]);
      assert false;
    }
    forall i | 0 <= i < |ds| ensures r.value[i] == ds[i] {
      TagRoundTrip(ds[i]);
    }
    assert r.value == ds;
  }
}
