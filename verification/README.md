# StartupController in Dafny

StartupController is a small supervisor for desktop programs. Each app is
described by a JSON configuration file in the apps directory (name, program,
arguments, whether it is enabled, whether its output is listened to, the
weekdays and the time-of-day window in which it may run). The supervisor loop
repeats one reconciliation tick every minute: `read_configs` discovers the
configuration files and loads new apps or re-reads the configuration of known
ones, then `load_apps` gives every registered app a turn, starting those that
are enabled, not running and inside their working time. When an app's output
listener sees the end of its output, the app is not restarted until the next
midnight. A command-line mode creates a new configuration from a name, a
program and weekday ordinals typed by the user.

This project models that core as pure functions over immutable data:

- `Errors` — the exceptions the core raises, one constructor per cause.
- `Text` — string support: `split`/join, ASCII digits and `int()`,
  `lower()`, space removal.
- `DayOfWeek` — the weekday enumeration, `parse` and `parse_today`
  (`dayofweek.py`).
- `Times` — clock readings (Python day ordinal plus microsecond of day),
  `parse_time`, the next-midnight instant and ISO weekday numbers.
- `Settings` — one app's decoded configuration (`SettingsController`) with the
  defaults for absent keys.
- `Schedule` — the eligibility decision `in_working_time`.
- `App` — one supervised app (`AppController`): start, kill/terminate, the
  listener's end-of-output transition, configuration reload, `start_app`'s
  decision.
- `Log` — log line assembly (`load_tag`, `write_log`'s prefixes).
- `Startup` — the registry (`StartupController`): `list_configs`, `load_app`,
  `start_app`, `create_config`.
- `Supervisor` — `read_configs`, `load_apps` and one tick of `loader`.
- `Cli` — `get_argument` and the weekday-ordinal validation of the creation
  mode.

The clock, the directory listing, the contents of configuration files and the
operating system's answer to a spawn request are parameters of the functions
that need them. The eligibility decision (`Schedule.InWorkingTime`) also takes
the outcome of the weekday lookup as a parameter, so that both the lookup as
written and the corrected one can be plugged in; the tick (`Supervisor.Tick`)
computes it from its clock reading with the corrected lookup.

Where the program's own documentation and its code disagree, the model follows
the code:

- The handler in `load_apps` falls back to the app id only when the app is not
  registered, which never happens there, so it always reads the configuration's
  `name`. A configuration without `name` therefore makes the handler raise
  again, the exception escapes `load_apps`, and the tick (and the program)
  ends (`Supervisor.LoadAppsAbortsOnlyOnNameless`, `Supervisor.Caught`).
- An unreadable configuration file, or a disabled new app without a `name`,
  raises out of `read_configs` and ends the tick as well
  (`Supervisor.ReadConfigsAbortCause`).
- "A running app is never suppressed" does not always hold: when the listener
  sees the end of the output but `poll()` still finds the process alive, the
  app is both running and suppressed until midnight
  (`App.ConsistencyAcrossTransitions`).
- The listener logs an exit under the app's name before it sets the
  suppression instant. If the configuration was reloaded without a `name`, that
  log call raises, the listener thread dies and no suppression is set: the app
  becomes idle and can be restarted the same day (`App.ExitObserved`,
  `App.NamelessExitNotSuppressed`).
- Without output listening nothing ever calls `poll()`, so an exit is never
  recorded: the app keeps counting as running, is never suppressed and is
  never restarted (`App.ExitObserved` leaves such an app unchanged).

The four defects listed under "## Findings" are each modelled twice: as
written, with a lemma exhibiting the input that goes wrong, and corrected,
with the intended property proved. The tick (`Supervisor.Tick`), the day-list
parser (`DayOfWeek.Parse`) and the ordinal reader (`Cli.ReadOrdinals`) use the
corrected definitions.

## Model

| member | source | states |
|---|---|---|
| DayOfWeek.All | dayofweek.py:5-26 | seven members, each exactly once, at its Sunday-first declaration position |
| DayOfWeek.NamesIdentify | dayofweek.py:21-22 | two days are equal exactly when their names are equal |
| DayOfWeek.ParseTag | dayofweek.py:29-31 | a tag parses exactly when it is one of the seven names, to the day with that name; any other tag fails naming the tag |
| DayOfWeek.TagRoundTrip | dayofweek.py:29-31 | parsing a day's own name gives the day back |
| DayOfWeek.ParseNumber | dayofweek.py:33-37 | as written: 0..6 give the day at that position, 7 indexes past the list, other integers give "DayOfWeek inválido!" |
| DayOfWeek.ParseNumberFixed | dayofweek.py:33-37 | corrected: succeeds exactly on 0..6, with the day at that position; every other integer is invalid |
| DayOfWeek.ParseNumberDiscrepancy | dayofweek.py:34-35 | the as-written and corrected integer parsers differ on exactly the input 7 |
| DayOfWeek.Parse | dayofweek.py:29-37 | a configuration entry parses exactly when it is a day name or a position 0..6, to that day; errors name the cause |
| DayOfWeek.ParseToday | dayofweek.py:40-41 | as written: ISO weekdays 1..6 name the right day (Monday..Saturday), Sunday (7) raises an index error |
| DayOfWeek.SundayTodayFails | dayofweek.py:40-41 | the weekday lookup fails on Sunday and names every other day correctly |
| DayOfWeek.ParseTodayFixed | dayofweek.py:40-41 | corrected: every ISO weekday number yields the day with that ISO number |
| DayOfWeek.TodayFixedRoundTrip | dayofweek.py:40-41 | the corrected lookup names every day, Sunday included |
| Times.NextMidnight | controller.py:133-134 | the suppression instant lies after the reading, and exactly the readings of that day or earlier lie before it |
| Times.IsoWeekday | dayofweek.py:41 | weekday numbers of day ordinals lie in 1..7, with ordinal 1 a Monday |
| Times.NextDayWeekday | dayofweek.py:41 | consecutive days cycle through the weekday numbers 1..7 |
| Times.IntOf | controller.py:304-306 | `int()` of a component, restricted to ASCII: it succeeds exactly on strings of ASCII decimal digits, with their decimal value, and otherwise fails naming the component |
| Times.Components | controller.py:304-306 | the components read exactly when each is a string of ASCII decimal digits: hour, then minute and second, each 0 when omitted; the first other component is named in the error |
| Times.TimeOf | controller.py:308 | a time exists exactly when hour ≤ 23, minute ≤ 59 and second ≤ 59, and is its second of the day; otherwise the first component out of range, hour first, names the error |
| Times.ParseTime | controller.py:294-308 | absent text or more than three parts give no bound; otherwise the first part that is not a number names the error, and all-number parts give the `time()` of their values (omitted parts 0) or its range error |
| Times.ParseTimeComponents | controller.py:298-308 | "h", "h:m", "h:m:s" read as h·3600+m·60+s with omitted parts 0, or fail on the first component out of range, hour first |
| Times.HourMinuteParts | controller.py:298-308 | any zero-padded "hh:mm" within range reads as hh hours and mm minutes |
| Times.TimeRoundTrip | controller.py:294-308 | every time of day written as "h:m:s" parses back to itself |
| Text.Split | controller.py:298 | `split` gives at least one piece and no piece contains the separator |
| Text.JoinSplit | controller.py:298 | joining the pieces of a split with the separator gives the text back |
| Text.SplitJoin | controller.py:298 | splitting pieces free of the separator joined by it gives the pieces back |
| Text.LowerChar | controller.py:234 | `str.lower()` on ASCII: an upper-case ASCII letter becomes its lower-case letter, every other character is kept |
| Text.Lower | controller.py:234 | `lower()` keeps the length and lower-cases each character on its own |
| Text.LowerAppend | controller.py:234 | lower-casing distributes over concatenation |
| Text.RemoveSpaces | controller.py:234 | `replace(' ', '')` leaves exactly the non-space characters, as many as there were, and a space-free text unchanged |
| Text.RemoveSpacesAppend | controller.py:234 | removing spaces distributes over concatenation, so the kept characters stay in order |
| Settings.Get | controller.py:81-82 | a present key gives its value, an absent key the default |
| Settings.Enabled | controller.py:39-41 | an app is enabled unless its configuration says otherwise |
| Settings.ListenProcess | controller.py:51-53 | an app is not listened to unless its configuration says otherwise |
| Settings.StartWorktime | controller.py:73-75 | no start key means no start bound; a present key gives exactly `parse_time` of its text, bound or error |
| Settings.EndWorktime | controller.py:77-79 | no end key means no end bound; a present key gives exactly `parse_time` of its text, bound or error |
| Settings.AppName | controller.py:47-49 | the name is read exactly when the key is present; otherwise a missing-key error for "name" |
| Settings.Argv | controller.py:112-113 | the argument vector exists exactly when program and an iterable args are present; it starts with the program and continues with the args (a string spreading into its characters); a missing key raises its KeyError, program first, and a scalar args the error of extending a list with it |
| Settings.ParseAll | controller.py:71 | success parses every entry in order; failure is the error of the first entry that fails, all before it parsing |
| Settings.DaysOfWeek | controller.py:67-71 | no `days` key means the empty list; otherwise the parse of every entry |
| Settings.DefaultsOfMissingKeys | controller.py:39-79 | absent keys mean enabled, not listening, every day and no time bounds; present ones give their values |
| Settings.TagEntries | controller.py:232 | a day list is written as the names of its days, one per day, in order |
| Settings.TagsReadBack | controller.py:232 | day lists written by name read back as the same days |
| Schedule.WindowDecision | controller.py:161-177 | the four-way test on the optional bounds is open exactly when every present bound allows the reading |
| Schedule.Suppressed | controller.py:154 | without a stored instant nothing is suppressed; a midnight instant suppresses exactly the readings of earlier days |
| Schedule.InWorkingTime | controller.py:153-177 | suppressed means no; then a bad day list or a failing weekday lookup raises, a day outside a non-empty list means no; then a start or end bound that fails to parse raises (start first); otherwise open exactly when the window is open |
| Schedule.EmptyDaysIgnoreWeekday | controller.py:157-159 | with no allowed-day list the weekday lookup never influences the decision |
| Schedule.NoBoundsIgnoreTimeOfDay | controller.py:161-169 | without time bounds the decision is the same at every time of the same day |
| Schedule.InvertedWindowNeverOpen | controller.py:165-177 | a window whose start is after its end is never open |
| Schedule.OfficeHoursBounds | controller.py:74-79 | "09:00" and "17:00" read as 9 and 17 hours |
| Schedule.OfficeHoursScenario | controller.py:161-177 | a 09:00-17:00 app is eligible at 10:00 and not at 20:00 |
| Schedule.MondayOnlyOnTuesday | controller.py:157-159 | a Monday-only app is never eligible on a Tuesday |
| Schedule.SundayFailsWithDays | controller.py:158 | with the lookup as written, every non-empty day list makes the decision raise on Sundays |
| App.Loaded | controller.py:88-93 | a freshly loaded app is not running and not suppressed |
| App.IsRunning | controller.py:99-101 | no process means not running; a spawned process runs exactly while no return code is recorded |
| App.Start | controller.py:107-119 | a running app refuses; missing program/args raise; otherwise the suppression is cleared and, when spawned, the app runs the configured argument vector, listening as configured |
| App.Stop | controller.py:143-151 | kill/terminate succeed exactly on a running app and change nothing |
| App.StopThenExit | controller.py:143-151 | once a signalled process is seen to exit with a code, the app is not running and a further signal is refused |
| App.ExitObserved | controller.py:123-135 | at end of output the poll result becomes the return code and the listener stops; restarts are suppressed until next midnight exactly when the app has a name, since the exit log line raises first otherwise; without a live listener nothing changes |
| App.ExitSuppressesUntilMidnight | controller.py:131-155 | after an observed exit of a named app, the app is ineligible for the rest of that day and from the next day on as eligible as if never suppressed |
| App.NamelessExitNotSuppressed | controller.py:131-134 | an exit of an app without a name records the code but leaves its suppression and eligibility as they were |
| App.ConsistencyAcrossTransitions | controller.py:115-134 | a successful start and an exit with a code leave the app not both running and suppressed; an end of output with a live process of a named app breaks this |
| App.Reload | __main__.py:14-17 | reloading changes the configuration only; process, running status and suppression are kept |
| App.StartIfEligible | controller.py:216-221 | the app is started exactly when enabled and (inside its working time or dates are not respected); otherwise it is returned unchanged without error; the working-time exception is raised regardless |
| Log.Label | controller.py:286 | a label is the text in brackets followed by a space |
| Log.LabelsAppend | controller.py:284-289 | the labels of two lists concatenated are the concatenated labels |
| Log.LoadTag | controller.py:277-291 | the line is one label per prefix, then one per tag, in order, then the text |
| Log.Render | controller.py:249-254 | every line starts with the "STARTUP CONTROLLER" label, then the extra prefixes and tags, then the text |
| Log.AppEntry | controller.py:140-141 | an app's log line carries the app's name as its one tag |
| Startup.StripJson | controller.py:198 | stripping the suffix leaves the id the file name was built from |
| Startup.StripJsonRoundTrip | controller.py:197-198 | an id with ".json" appended is a configuration file name that strips back to the id |
| Startup.IsConfigFile | controller.py:197 | an entry is a configuration file exactly when it is a regular file whose name is some id followed by ".json" |
| Startup.ListConfigs | controller.py:192-200 | an id is listed exactly when a regular file named id + ".json" is in the directory, and one entry gives at most one id |
| Startup.ListConfigsAppend | controller.py:196-200 | the ids of a listing split in two are the ids of the first part followed by those of the second, so ids come in listing order |
| Startup.LoadConfig | controller.py:206-207 | loading succeeds exactly when the id's file decodes, with its contents |
| Startup.LoadApp | controller.py:202-211 | a registered id is refused; otherwise the app is registered at the end of the order with its file's configuration, or the file error is raised |
| Startup.StartApp | controller.py:216-221 | a tracked or freshly loaded app gets the start decision; the registry stays well formed and only that app changes |
| Startup.ConfigStem | controller.py:234 | the derived id has no spaces and no upper-case ASCII letters, is as long as the name without its spaces, and a name already in that form is kept |
| Startup.StemIgnoresSpaces | controller.py:234 | a space anywhere in a name does not change its id |
| Startup.StemIgnoresCase | controller.py:234 | the case of an ASCII letter anywhere in a name does not change its id |
| Startup.ConfigFileName | controller.py:234 | the file written for a name is its derived id plus ".json" |
| Startup.NewConfig | controller.py:228-233 | the new configuration reads back with its name, the program alone as argument vector, enabled, not listening, its days by name and no time bounds |
| Startup.CreateConfig | controller.py:226-245 | creation succeeds exactly when the file does not exist and can be written, and then writes the new configuration |
| Startup.SameStemRefused | controller.py:234-238 | once a name is created, every name with the same id, such as one differing only in spaces or case, is refused |
| Startup.CreatedConfigReadsBack | controller.py:228-241 | a created configuration is listed under its id and reads back enabled, not listening, with its name, program, no arguments, its days and no time bounds |
| Supervisor.FailureEntries | __main__.py:42-43 | a caught failure logs two lines tagged "FALHA" and the app name: the notice, then the exception text |
| Supervisor.Caught | __main__.py:39-43 | a caught exception is logged under the app's name; a missing name makes the handler itself raise |
| Supervisor.AppTurn | __main__.py:27-38 | disabled or running apps are skipped; otherwise the start decision is taken; an app left idle without error is skipped silently; "Executando" is logged only for an app it started, the logs-off notice only when not listening; a started app without a name lets the handler's exception escape |
| Supervisor.LoadAppsFrom | __main__.py:25-43 | a pass keeps the registry well formed and its order unchanged (what it logs: `LoadAppsFromLog`, `LoadAppsFromLogAborted`) |
| Supervisor.LoadAppsFromLog | __main__.py:26-43 | a pass that runs to the end logs the lines of every turn, each turn taken on its app as the pass found it, in registration order |
| Supervisor.LoadAppsFromLogAborted | __main__.py:26-43 | a pass that an exception ends stops at the first turn whose exception escapes the handler, raises that exception, and logs the lines of the turns up to and including it, in registration order |
| Supervisor.LoadAppsFromKeepsEarlier | __main__.py:26-43 | a pass from a position leaves apps before it alone |
| Supervisor.LoadAppsFromEachApp | __main__.py:26-43 | every app ends a pass as it was or as its own turn leaves it |
| Supervisor.LoadAppsFromAbort | __main__.py:26-43 | a pass runs to the end exactly when no turn lets an exception escape |
| Supervisor.LoadAppsFromComplete | __main__.py:26-43 | a complete pass leaves every app as its own turn leaves it |
| Supervisor.LoadApps | __main__.py:25-43 | `load_apps` neither adds nor removes apps and keeps the registry well formed (what it logs: `LoadAppsLog`) |
| Supervisor.LoadAppsLog | __main__.py:26-43 | when `load_apps` runs to the end, every line an app's turn logs is in the log and every line of the log is some app's turn's |
| Supervisor.LoadAppsSkipsDisabledAndRunning | __main__.py:28-29 | a disabled or running app leaves `load_apps` exactly as it entered |
| Supervisor.LoadAppsIsolatesApps | __main__.py:26-43 | without an escaping exception each app's outcome depends on its own state only |
| Supervisor.LoadAppsAbortsOnlyOnNameless | __main__.py:39-43 | when every app has a name no exception escapes `load_apps` |
| Supervisor.NamedTurnNeverFatal | __main__.py:39-43 | a turn of a named app never lets an exception escape |
| Supervisor.ReadOne | __main__.py:13-22 | a tracked app is reloaded in place and every other app is left exactly as it was; a new one is registered unstarted, appended to the registration order, which is otherwise unchanged; the log is exactly the disabled notice of a named disabled newcomer and empty otherwise; it fails exactly on an unreadable file or a disabled nameless newcomer |
| Supervisor.ReadConfigs | __main__.py:12-22 | `read_configs` keeps the registry well formed |
| Supervisor.ReadConfigsKeepsRuns | __main__.py:14-17 | tracked apps stay tracked, in place, with their process and suppression |
| Supervisor.ReadConfigsNewcomers | __main__.py:19 | every new app comes from the listing with its file's configuration and has never run |
| Supervisor.ReadConfigsRegistersAll | __main__.py:13-22 | a complete pass registers every listed id with its file's current configuration, disabled ones included |
| Supervisor.ReadConfigsKeepsConfigOf | __main__.py:14-16 | an app already holding its file's configuration keeps it |
| Supervisor.ReadConfigsAbortCause | __main__.py:12-22 | a pass fails only because of a listed configuration that is unreadable or disabled without a name, and never when all read cleanly |
| Supervisor.ReadConfigsLog | __main__.py:20-21 | everything `read_configs` logs is the disabled notice of a listed disabled app under its name (the converse: `ReadConfigsLogsNotices`) |
| Supervisor.ReadConfigsLogsNotices | __main__.py:19-21 | a `read_configs` pass that runs to the end logs "Desativado nas configurações!" under the name of every listed newcomer whose file reads and disables a named app |
| Supervisor.ReadConfigsKeepsUnlisted | __main__.py:13-17 | a tracked app whose file is not listed leaves the pass exactly as it entered |
| Supervisor.ReadConfigsOrder | __main__.py:13-22 | a pass that runs to the end appends the newly registered ids to the registration order in listing order, skipping tracked and repeated ids, and its log is the disabled notices of those newcomers in that same order; `load_apps` iterates the apps in this order (controller.py:189-190, 202-211) |
| Supervisor.Tick | __main__.py:46-50 | a tick keeps the registry well formed; an exception in `read_configs` ends it with that pass's outcome; otherwise the registry and the escaping exception are those `load_apps` leaves, run with the corrected weekday lookup on the registry `read_configs` left, and the log is what `read_configs` logged followed by what `load_apps` logged |
| Supervisor.TickCompletes | __main__.py:46-49 | a tick runs to the end when every listed file reads and names its app and every tracked app is still listed |
| Supervisor.TickStartsEligible | __main__.py:26-35 | when every listed file reads and names its app and every tracked app is still listed, so that the tick runs to the end, the tick leaves every listed, readable, enabled, idle app that is inside its working time and can be spawned running, with the command line its configuration gives |
| Supervisor.TickKeepsRunningProcess | __main__.py:46-49 | a tick never restarts or replaces the process of a running app |
| Supervisor.TickNeverStartsDisabled | __main__.py:46-49 | a tick never starts an app its current configuration disables |
| Supervisor.CrashThenNextDay | __main__.py:28-31 | an app that exits is not restarted later that day and is restarted the next day when its schedule allows |
| Supervisor.SundayTurnFails | __main__.py:31-43 | with the lookup as written, a Sunday turn of a scheduled app logs a failure instead of starting it |
| Supervisor.SundayTurnFixed | __main__.py:31-35 | with the corrected lookup, an app scheduled for Sundays is started on a Sunday |
| Cli.IndexOf | __main__.py:57 | the position found holds the flag, and no earlier position does |
| Cli.GetArgument | __main__.py:53-61 | as written: absent flag gives nothing, the following argument is returned, a flag in last position raises an index error |
| Cli.GetArgumentFixed | __main__.py:53-61 | corrected: a value is returned exactly when the flag is followed by an argument, and it is that argument |
| Cli.GetArgumentDiscrepancy | __main__.py:58-59 | the two readings agree except exactly when the flag's first occurrence is the last argument |
| Cli.ReadOrdinals | __main__.py:101-109 | the entries are accepted exactly when each is a number 1..7, each becoming the day at that Sunday-first ordinal |
| Cli.DayInputAsWritten | __main__.py:93-109 | as written: an empty answer is rejected and every non-empty answer means every day |
| Cli.DayInput | __main__.py:83-109 | corrected: empty means every day; otherwise accepted exactly when at most seven comma-separated ordinals 1..7, naming those days in order |
| Cli.OrdinalText | __main__.py:85-91 | the ordinal typed for a day is a valid entry whose value is its position plus one |
| Cli.DayInputRoundTrip | __main__.py:83-109 | typing the ordinals of up to seven days gives those days back |
| Cli.OrdinalOneIsSunday | __main__.py:85 | typing 1 names Sunday, the same day the tag "sunday" names |

## Left out

- Spawning processes, the output pipe, UTF-8 decoding of output lines and the listener thread are not modelled; the spawn outcome is a parameter and the listener's end-of-output is the single transition `App.ExitObserved`, applied atomically.
- Concurrency between the listener thread and the loop is not modelled: each tick sees one consistent state.
- The log lines written per output line and the "O aplicativo foi encerrado com o código N" line of the listener are not modelled.
- Writing log lines to the log file and the console, with their timestamps, is not modelled: a log is the sequence of `write_log` calls.
- JSON decoding and encoding are not modelled: a configuration file is either decoded into the typed `Settings.Config` record or unreadable. Values of unexpected JSON types (for example `"enabled": null` or a number as `name`) are not represented.
- Creating the configuration directories (`make_configdir`, `get_config_dir`) and the file-system queries (`os.listdir`, `isfile`, `exists`) are parameters.
- The clock is a parameter read once per decision; the sleep between ticks and the endless loop are not modelled (one tick is `Supervisor.Tick`).
- The construction-time path check of `SettingsController` is not modelled, because the supervisor only builds paths from listed file names.
- Startup.LoadConfig: a file that does not hold a JSON object is treated as unreadable, so `read_configs` raises at its id and the tick ends before `load_apps`. The program checks only that the decoded value is not `null` and tests keys by membership in the value, so it differs as the next three lines say.
- Startup.LoadConfig: for `null`, a new id makes the program raise in `read_configs` too, from the loaded-configuration check of `AppController`. A tracked id reloads without raising, and the tick ends in `load_apps` at that app's turn, after the earlier apps' turns, because its `enabled` test and then the handler's name lookup raise.
- Startup.LoadConfig: for a list or a string, a key counts as present when it occurs in the value, and reading a present key raises. A new id is registered as an enabled app unless "enabled" occurs in the value, which makes `read_configs` raise. In `load_apps` such an app is left alone when it is running or suppressed and "enabled" does not occur in it. Otherwise it raises at the first key it reads, `data['program']` at the latest, and the handler's name lookup raises again, ending the tick after the earlier apps' turns.
- Startup.LoadConfig: for a number or a boolean, the membership test itself raises. A new id makes `read_configs` raise at its `enabled` test. A tracked id ends the tick in `load_apps` at its turn, where the handler's name lookup raises as well.
- `get_app` on an unregistered id is not modelled, because the supervisor only looks up registered ids.
- Evaluating `DayOfWeek.<tag>` is replaced by a lookup of the seven names: other attribute names and expressions that the evaluation would accept are not modelled.
- The interactive prompts of the creation mode, its program-existence test and its messages are not modelled; `Cli.DayInput` and `Startup.CreateConfig` model its decisions.
- The top-level dispatch on `--create`, the start-up log line and the handling of `KeyboardInterrupt` are not modelled.
- Supervisor.Tick: uses the corrected weekday lookup. The program as written raises on every Sunday for each enabled, idle app that has a day list and is not suppressed that day. For an app with a name it logs "Falha ao iniciar" and the index error under that name and does not start it (`Supervisor.SundayTurnFails`). For an app without a name the handler's own name lookup raises, and the tick ends there.
- DayOfWeek.Parse: uses the corrected integer guard; the program as written raises an index error ("list index out of range") for a day entry 7 where the model gives "DayOfWeek inválido!". Both are exceptions that stop the app's turn, only the logged text differs.
- Cli.ReadOrdinals: uses the corrected integer parser; on the values it passes (0..6) the parser as written gives the same days.
- App.ExitSuppressesUntilMidnight: holds only for an app with a name; `App.NamelessExitNotSuppressed` states what happens without one.
- App.ExitObserved: the log line written for each output line is not modelled. For a configuration without a name, the first output line already makes the listener raise and stop, before any exit is polled, after which the app counts as running for good.
- Times.ParseTime: reads components as ASCII decimal digits only; Python's `int()` also accepts surrounding whitespace, signs, underscores and non-ASCII digits.
- Times.IntOf: accepts exactly the non-empty strings of ASCII digits; Python's `int()` also accepts surrounding whitespace, a sign, underscores between digits and non-ASCII decimal digits, which the model rejects with `NotANumber`.
- Times.Components: inherits the digit-only domain of `Times.IntOf`, so a component such as " 9" or "+9" fails here and reads in the program.
- Cli.ReadOrdinals: accepts ASCII decimal digits only; `str.isnumeric` also accepts other numeric characters.
- Text.Lower: lower-cases ASCII letters only, not the rest of Unicode.
- Text.LowerChar: maps only the ASCII capitals 'A' to 'Z'; Python's `str.lower()` also lowers non-ASCII capitals such as 'É'.
- Startup.ConfigStem: lower-cases ASCII letters only, so a non-ASCII capital stays in the id, where the program would lower it.
- Errors.Describe: the texts of Python's built-in exceptions are approximations.
- A `time` bound of midnight counts as present, as it does in Python 3.5 and later.
- Package metadata (`setup.py`) is not part of this model.

## Findings

| source | as written | input that shows it | evidently intended | confidence | as-written member | corrected member |
|---|---|---|---|---|---|---|
| dayofweek.py:34 | the guard `0 <= value <= len(days)` admits 7 | `parse(7)` raises an index error instead of "DayOfWeek inválido!" | `0 <= value < len(days)` | not executed; high | DayOfWeek.ParseNumberDiscrepancy | DayOfWeek.ParseNumberFixed |
| dayofweek.py:41 | the ISO weekday (Monday 1 … Sunday 7) is used as a Sunday-first zero-based position | any Sunday: `parse(7)` raises, so every app with a day list fails to start on Sundays | reduce the ISO number modulo 7 | not executed; high | DayOfWeek.SundayTodayFails | DayOfWeek.TodayFixedRoundTrip |
| __main__.py:96 | the ordinals are validated only when the answer is empty | answer "" is rejected; answer "9" or "x" gives an app for every day | validate when the answer is not empty | not executed; high | Cli.DayInputAsWritten | Cli.DayInput |
| __main__.py:58 | the guard `len(sys.argv) >= index` admits the position past the end | `--create -name` raises an index error | `index < len(sys.argv)` | not executed; high | Cli.GetArgumentDiscrepancy | Cli.GetArgumentFixed |
