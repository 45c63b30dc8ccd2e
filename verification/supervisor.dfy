/** One reconciliation tick of the supervisor loop: `read_configs` followed
    by `load_apps`. The sleep between ticks and the endless loop around them
    are not modelled; an exception that escapes a tick ends the program. */
module Supervisor {
  import opened Wrappers
  import opened Errors
  import opened DayOfWeek
  import opened Times
  import opened Settings
  import opened Schedule
  import opened App
  import opened Log
  import opened Startup

  const DisabledNotice: string := "Desativado nas configurações!"
  const RunningNotice: string := "Executando"
  const LogsOffNotice: string := "Os logs estão desativados!"
  const FailureNotice: string := "Falha ao iniciar"
  const FailureTag: string := "FALHA"

  /** The two lines logged for an exception caught in `load_apps`. */
  function FailureEntries(name: string, e: AppError): (log: seq<Entry>)
    ensures |log| == 2
    ensures forall k :: 0 <= k < 2 ==> log[k].tags == [FailureTag, name] && log[k].prefixes == []
    ensures log[0].text == FailureNotice && log[1].text == Describe(e)
  {
    [Entry(FailureNotice, [FailureTag, name], []), Entry(Describe(e), [FailureTag, name], [])]
  }

  /** One app after its turn in `load_apps`: its new state, what was logged,
      and an exception that escaped the handler, if any. */
  datatype Turn = Turn(app: AppState, log: seq<Entry>, fatal: Option<AppError>)

  /** The handler of `load_apps`: log the failure under the app's name.
      Looking the name up can itself raise, and that exception escapes. */
  function Caught(a: AppState, e: AppError): (t: Turn)
    ensures t.app == a
    ensures AppName(a.config).Ok? ==> t == Turn(a, FailureEntries(AppName(a.config).value, e), None)
    ensures AppName(a.config).Err? ==> t == Turn(a, [], Some(KeyMissing("name")))
  {
    match AppName(a.config)
    case Err(nameErr) => Turn(a, [], Some(nameErr))
    case Ok(name) => Turn(a, FailureEntries(name, e), None)
  }

  /** The body of the `load_apps` loop for one app. */
  function AppTurn(a: AppState, now: Clock, today: Result<Day, AppError>, spawn: Option<string>): (t: Turn)
    ensures t.app.id == a.id && t.app.config == a.config
    ensures !Enabled(a.config) || IsRunning(a) ==> t == Turn(a, [], None)
    ensures Enabled(a.config) && !IsRunning(a) ==> t.app == StartIfEligible(a, true, now, today, spawn).app
    ensures t.fatal.Some? ==> t.fatal == Some(KeyMissing("name")) && AppName(a.config).Err?
    ensures forall n :: AppEntry(n, RunningNotice) in t.log ==> IsRunning(t.app) && !IsRunning(a)
    ensures forall n :: AppEntry(n, LogsOffNotice) in t.log ==> IsRunning(t.app) && !ListenProcess(a.config)
    ensures Enabled(a.config) && !IsRunning(a) && IsRunning(t.app) && AppName(a.config).Ok? ==>
              t.fatal.None? &&
              t.log == [AppEntry(AppName(a.config).value, RunningNotice)] +
                       (if ListenProcess(a.config) then [] else [AppEntry(AppName(a.config).value, LogsOffNotice)])
    ensures Enabled(a.config) && !IsRunning(a) &&
            StartIfEligible(a, true, now, today, spawn).err.Some? ==>
              t == Caught(StartIfEligible(a, true, now, today, spawn).app,
                          StartIfEligible(a, true, now, today, spawn).err.value)
    ensures Enabled(a.config) && !IsRunning(a) &&
            StartIfEligible(a, true, now, today, spawn).err.None? &&
            !IsRunning(StartIfEligible(a, true, now, today, spawn).app) ==>
              t == Turn(StartIfEligible(a, true, now, today, spawn).app, [], None)
    ensures Enabled(a.config) && !IsRunning(a) &&
            StartIfEligible(a, true, now, today, spawn).err.None? &&
            IsRunning(StartIfEligible(a, true, now, today, spawn).app) && AppName(a.config).Err? ==>
              t == Turn(StartIfEligible(a, true, now, today, spawn).app, [], Some(KeyMissing("name")))
  {
    if !Enabled(a.config) || IsRunning(a) then Turn(a, [], None)
    else
      var step := StartIfEligible(a, true, now, today, spawn);
      var b := step.app;
      if step.err.Some? then Caught(b, step.err.value)
      else if !IsRunning(b) then Turn(b, [], None)
      else
        match AppName(b.config)
        case Err(nameErr) => Caught(b, nameErr)
        case Ok(name) =>
          var running := [AppEntry(name, RunningNotice)];
          if ListenProcess(b.config) then Turn(b, running, None)
          else Turn(b, running + [AppEntry(name, LogsOffNotice)], None)
  }

  /** A pass over the registry: the registry after it, what was logged and
      the exception that ended it early, if any. */
  datatype Pass = Pass(reg: Registry, log: seq<Entry>, abort: Option<AppError>)

  /** The spawn answer for one app. */
  function SpawnFor(spawns: map<string, string>, id: string): Option<string> {
    if id in spawns then Some(spawns[id]) else None
  }

  /** `load_apps` from position `i` of the registration order on: each
      registered app takes its `turn` in order, and the pass stops at the
      first exception that escapes a turn. */
  function LoadAppsFrom(reg: Registry, i: nat, turn: (string, AppState) -> Turn): (r: Pass)
    requires Valid(reg) && i <= |reg.order|
    decreases |reg.order| - i
    ensures Valid(r.reg) && r.reg.order == reg.order
  {
    if i == |reg.order| then Pass(reg, [], None)
    else
      var id := reg.order[i];
      var t := turn(id, reg.apps[id]);
      var reg' := Put(reg, id, t.app);
      if t.fatal.Some? then Pass(reg', t.log, t.fatal)
      else
        var rest := LoadAppsFrom(reg', i + 1, turn);
        Pass(rest.reg, t.log + rest.log, rest.abort)
  }

  /** What the turns of the apps at positions `lo` to `hi` log, in
      registration order, each turn taken on the app as it was before the
      pass. */
  function TurnLogs(reg: Registry, lo: nat, hi: nat, turn: (string, AppState) -> Turn): (log: seq<Entry>)
    requires Valid(reg) && lo <= hi <= |reg.order|
    decreases hi - lo
  {
    if lo == hi then []
    else turn(reg.order[lo], reg.apps[reg.order[lo]]).log + TurnLogs(reg, lo + 1, hi, turn)
  }

  /** An entry is in `TurnLogs` exactly when one of those turns logs it. */
  lemma {:induction false} TurnLogsMembers(reg: Registry, lo: nat, hi: nat, turn: (string, AppState) -> Turn)
    requires Valid(reg) && lo <= hi <= |reg.order|
    decreases hi - lo
    ensures forall e :: e in TurnLogs(reg, lo, hi, turn) <==>
              exists k :: lo <= k < hi && e in turn(reg.order[k], reg.apps[reg.order[k]]).log
  {
    if lo < hi {
      TurnLogsMembers(reg, lo + 1, hi, turn);
    }
  }

  /** Replacing the app at position `i` does not change what the turns of
      later apps log. */
  lemma {:induction false} TurnLogsAfter(reg: Registry, id: string, a: AppState, i: nat, lo: nat, hi: nat,
                                         turn: (string, AppState) -> Turn)
    requires Valid(reg) && i < lo <= hi <= |reg.order| && reg.order[i] == id
    decreases hi - lo
    ensures TurnLogs(Put(reg, id, a), lo, hi, turn) == TurnLogs(reg, lo, hi, turn)
  {
    if lo < hi {
      Distinct(reg, i, lo);
      TurnLogsAfter(reg, id, a, i, lo + 1, hi, turn);
    }
  }

  /** Position `k` holds the first app from position `i` on whose turn
      lets an exception escape. */
  predicate FirstFatal(reg: Registry, i: nat, k: int, turn: (string, AppState) -> Turn)
    requires Valid(reg)
  {
    && i <= k < |reg.order|
    && turn(reg.order[k], reg.apps[reg.order[k]]).fatal.Some?
    && forall j :: i <= j < k ==> turn(reg.order[j], reg.apps[reg.order[j]]).fatal.None?
  }

  /** A pass that runs to the end logs what all its turns log, in
      registration order. */
  lemma {:induction false} LoadAppsFromLog(reg: Registry, i: nat, turn: (string, AppState) -> Turn)
    requires Valid(reg) && i <= |reg.order|
    requires LoadAppsFrom(reg, i, turn).abort.None?
    decreases |reg.order| - i
    ensures LoadAppsFrom(reg, i, turn).log == TurnLogs(reg, i, |reg.order|, turn)
  {
    if i < |reg.order| {
      var id := reg.order[i];
      var t := turn(id, reg.apps[id]);
      var reg' := Put(reg, id, t.app);
      assert t.fatal.None?;
      var rest := LoadAppsFrom(reg', i + 1, turn);
      assert LoadAppsFrom(reg, i, turn).log == t.log + rest.log;
      LoadAppsFromLog(reg', i + 1, turn);
      TurnLogsAfter(reg, id, t.app, i, i + 1, |reg.order|, turn);
    }
  }

  /** The pass `r` from position `i` on ended with the exception of the
      first fatal turn, at position `k`, having logged what the turns up to
      and including that one log. */
  predicate EndedAt(reg: Registry, i: nat, k: int, turn: (string, AppState) -> Turn, r: Pass)
    requires Valid(reg)
  {
    && FirstFatal(reg, i, k, turn)
    && r.abort == turn(reg.order[k], reg.apps[reg.order[k]]).fatal
    && r.log == TurnLogs(reg, i, k + 1, turn)
  }

  /** An ending found after a non-fatal turn at position `i` is also the
      ending of the pass from `i`, with that turn's lines in front. */
  lemma EndedAtShift(reg: Registry, i: nat, k: int, turn: (string, AppState) -> Turn, rest: Pass)
    requires Valid(reg) && i < |reg.order|
    requires turn(reg.order[i], reg.apps[reg.order[i]]).fatal.None?
    requires EndedAt(Put(reg, reg.order[i], turn(reg.order[i], reg.apps[reg.order[i]]).app), i + 1, k, turn, rest)
    ensures EndedAt(reg, i, k, turn,
                    Pass(rest.reg, turn(reg.order[i], reg.apps[reg.order[i]]).log + rest.log, rest.abort))
  {
    var id := reg.order[i];
    var t := turn(id, reg.apps[id]);
    SameTurnsAfter(reg, id, t.app, i, turn);
    TurnLogsAfter(reg, id, t.app, i, i + 1, k + 1, turn);
  }

  /** A pass that an exception ends logs what its turns log, in
      registration order, up to and including the first fatal turn, whose
      exception it is. */
  lemma {:induction false} LoadAppsFromLogAborted(reg: Registry, i: nat, turn: (string, AppState) -> Turn)
    requires Valid(reg) && i <= |reg.order|
    requires LoadAppsFrom(reg, i, turn).abort.Some?
    decreases |reg.order| - i
    ensures exists k :: EndedAt(reg, i, k, turn, LoadAppsFrom(reg, i, turn))
  {
    var r := LoadAppsFrom(reg, i, turn);
    assert i < |reg.order|;
    var id := reg.order[i];
    var t := turn(id, reg.apps[id]);
    var reg' := Put(reg, id, t.app);
    if t.fatal.Some? {
      assert r == Pass(reg', t.log, t.fatal);
      assert TurnLogs(reg, i, i + 1, turn) == t.log + [];
      assert EndedAt(reg, i, i, turn, r);
    } else {
      var rest := LoadAppsFrom(reg', i + 1, turn);
      assert r == Pass(rest.reg, t.log + rest.log, rest.abort);
      LoadAppsFromLogAborted(reg', i + 1, turn);
      var k :| EndedAt(reg', i + 1, k, turn, rest);
      EndedAtShift(reg, i, k, turn, rest);
    }
  }

  /** The pass from position `i` when the turn there lets an exception
      escape: that turn's app is stored and the pass ends. */
  lemma LoadAppsFromFatalStep(reg: Registry, i: nat, turn: (string, AppState) -> Turn)
    requires Valid(reg) && i < |reg.order|
    requires turn(reg.order[i], reg.apps[reg.order[i]]).fatal.Some?
    ensures LoadAppsFrom(reg, i, turn).reg == Put(reg, reg.order[i], turn(reg.order[i], reg.apps[reg.order[i]]).app)
  {
  }

  /** The pass from position `i` when the turn there does not let an
      exception escape: the pass goes on from `i + 1` with that turn's app
      stored. */
  lemma LoadAppsFromStep(reg: Registry, i: nat, turn: (string, AppState) -> Turn)
    requires Valid(reg) && i < |reg.order|
    requires turn(reg.order[i], reg.apps[reg.order[i]]).fatal.None?
    ensures LoadAppsFrom(reg, i, turn).reg ==
            LoadAppsFrom(Put(reg, reg.order[i], turn(reg.order[i], reg.apps[reg.order[i]]).app), i + 1, turn).reg
  {
  }

  /** `x` is not registered at position `i` or later. */
  predicate NotFrom(reg: Registry, i: nat, x: string) {
    forall j :: i <= j < |reg.order| ==> reg.order[j] != x
  }

  /** An app not registered at position `i` or later is not touched by
      the pass from `i`. */
  lemma {:induction false} LoadAppsFromKeepsOthers(reg: Registry, i: nat, turn: (string, AppState) -> Turn, x: string)
    requires Valid(reg) && i <= |reg.order| && x in reg.apps && NotFrom(reg, i, x)
    decreases |reg.order| - i, 1
    ensures LoadAppsFrom(reg, i, turn).reg.apps[x] == reg.apps[x]
  {
    if i < |reg.order| {
      KeepsOthersFrom(reg, i, turn, x);
    } else {
      assert LoadAppsFrom(reg, i, turn).reg == reg;
    }
  }

  /** The case of `LoadAppsFromKeepsOthers` where a turn is taken. */
  lemma {:induction false} KeepsOthersFrom(reg: Registry, i: nat, turn: (string, AppState) -> Turn, x: string)
    requires Valid(reg) && i < |reg.order| && x in reg.apps && NotFrom(reg, i, x)
    decreases |reg.order| - i, 0
    ensures LoadAppsFrom(reg, i, turn).reg.apps[x] == reg.apps[x]
  {
    var id := reg.order[i];
    var t := turn(id, reg.apps[id]);
    var reg' := Put(reg, id, t.app);
    assert id != x && reg'.apps[x] == reg.apps[x];
    if t.fatal.None? {
      LoadAppsFromStep(reg, i, turn);
      assert NotFrom(reg', i + 1, x);
      LoadAppsFromKeepsOthers(reg', i + 1, turn, x);
    } else {
      LoadAppsFromFatalStep(reg, i, turn);
    }
  }

  /** Apps before position `i` are not touched. */
  lemma LoadAppsFromKeepsEarlier(reg: Registry, i: nat, turn: (string, AppState) -> Turn)
    requires Valid(reg) && i <= |reg.order|
    ensures forall k :: 0 <= k < i ==>
              LoadAppsFrom(reg, i, turn).reg.apps[reg.order[k]] == reg.apps[reg.order[k]]
  {
    forall k | 0 <= k < i
      ensures LoadAppsFrom(reg, i, turn).reg.apps[reg.order[k]] == reg.apps[reg.order[k]]
    {
      forall j | i <= j < |reg.order| ensures reg.order[j] != reg.order[k] {
        Distinct(reg, k, j);
      }
      LoadAppsFromKeepsOthers(reg, i, turn, reg.order[k]);
    }
  }

  /** Every app from position `i` on ends either as it was or as its own
      turn leaves it: a turn sees only its own app's state. */
  lemma {:induction false} LoadAppsFromEachApp(reg: Registry, i: nat, turn: (string, AppState) -> Turn)
    requires Valid(reg) && i <= |reg.order|
    decreases |reg.order| - i
    ensures forall k :: i <= k < |reg.order| ==>
              var id := reg.order[k];
              || LoadAppsFrom(reg, i, turn).reg.apps[id] == reg.apps[id]
              || LoadAppsFrom(reg, i, turn).reg.apps[id] == turn(id, reg.apps[id]).app
  {
    if i < |reg.order| {
      var id := reg.order[i];
      var t := turn(id, reg.apps[id]);
      var reg' := Put(reg, id, t.app);
      if t.fatal.None? {
        LoadAppsFromEachApp(reg', i + 1, turn);
        LoadAppsFromKeepsEarlier(reg', i + 1, turn);
        forall k | i < k < |reg.order| ensures reg'.apps[reg.order[k]] == reg.apps[reg.order[k]] {
          Distinct(reg, i, k);
        }
      }
    }
  }

  /** The pass runs to the end exactly when no turn from position `i` on
      lets an exception escape. */
  lemma {:induction false} LoadAppsFromAbort(reg: Registry, i: nat, turn: (string, AppState) -> Turn)
    requires Valid(reg) && i <= |reg.order|
    decreases |reg.order| - i
    ensures LoadAppsFrom(reg, i, turn).abort.None? <==>
              forall k :: i <= k < |reg.order| ==> turn(reg.order[k], reg.apps[reg.order[k]]).fatal.None?
  {
    if i < |reg.order| {
      var id := reg.order[i];
      var t := turn(id, reg.apps[id]);
      var reg' := Put(reg, id, t.app);
      if t.fatal.None? {
        var rest := LoadAppsFrom(reg', i + 1, turn);
        assert LoadAppsFrom(reg, i, turn).abort == rest.abort;
        LoadAppsFromAbort(reg', i + 1, turn);
        SameTurnsAfter(reg, id, t.app, i, turn);
      }
    }
  }

  /** Replacing the app at position `i` leaves the turns of later apps as
      they were. */
  lemma SameTurnsAfter(reg: Registry, id: string, a: AppState, i: nat, turn: (string, AppState) -> Turn)
    requires Valid(reg) && i < |reg.order| && reg.order[i] == id
    ensures forall k :: i < k < |reg.order| ==>
              turn(reg.order[k], Put(reg, id, a).apps[reg.order[k]]) == turn(reg.order[k], reg.apps[reg.order[k]])
  {
    forall k | i < k < |reg.order|
      ensures Put(reg, id, a).apps[reg.order[k]] == reg.apps[reg.order[k]]
    {
      Distinct(reg, i, k);
    }
  }

  /** A pass that runs to the end leaves every app from position `i` on as
      its own turn leaves it. */
  lemma {:induction false} LoadAppsFromComplete(reg: Registry, i: nat, turn: (string, AppState) -> Turn)
    requires Valid(reg) && i <= |reg.order|
    requires LoadAppsFrom(reg, i, turn).abort.None?
    decreases |reg.order| - i
    ensures forall k :: i <= k < |reg.order| ==>
              LoadAppsFrom(reg, i, turn).reg.apps[reg.order[k]] == turn(reg.order[k], reg.apps[reg.order[k]]).app
  {
    if i < |reg.order| {
      var id := reg.order[i];
      var t := turn(id, reg.apps[id]);
      var reg' := Put(reg, id, t.app);
      assert t.fatal.None?;
      var rest := LoadAppsFrom(reg', i + 1, turn);
      assert LoadAppsFrom(reg, i, turn).reg == rest.reg;
      LoadAppsFromComplete(reg', i + 1, turn);
      LoadAppsFromKeepsEarlier(reg', i + 1, turn);
      forall k | i < k < |reg.order| ensures reg'.apps[reg.order[k]] == reg.apps[reg.order[k]] {
        Distinct(reg, i, k);
      }
    }
  }

  /** `load_apps` with the clock reading, the weekday lookup and the spawn
      answers of this tick. */
  function LoadApps(reg: Registry, now: Clock, today: Result<Day, AppError>,
                    spawns: map<string, string>): (r: Pass)
    requires Valid(reg)
    ensures Valid(r.reg) && r.reg.order == reg.order
  {
    LoadAppsFrom(reg, 0, (id, a) => AppTurn(a, now, today, SpawnFor(spawns, id)))
  }

  /** `load_apps` never starts an app that is disabled or already
      running: such an app leaves the pass exactly as it entered. */
  lemma LoadAppsSkipsDisabledAndRunning(reg: Registry, now: Clock, today: Result<Day, AppError>,
                                        spawns: map<string, string>, id: string)
    requires Valid(reg) && id in reg.apps
    requires !Enabled(reg.apps[id].config) || IsRunning(reg.apps[id])
    ensures LoadApps(reg, now, today, spawns).reg.apps[id] == reg.apps[id]
  {
    var turn := (id, a) => AppTurn(a, now, today, SpawnFor(spawns, id));
    LoadAppsFromEachApp(reg, 0, turn);
    var k :| 0 <= k < |reg.order| && reg.order[k] == id;
  }

  /** When no exception escapes, every app ends the pass in the state its
      own turn produces, whatever the other apps did. */
  lemma LoadAppsIsolatesApps(reg: Registry, now: Clock, today: Result<Day, AppError>,
                             spawns: map<string, string>, id: string)
    requires Valid(reg) && id in reg.apps
    requires LoadApps(reg, now, today, spawns).abort.None?
    ensures LoadApps(reg, now, today, spawns).reg.apps[id] == AppTurn(reg.apps[id], now, today, SpawnFor(spawns, id)).app
  {
    var turn := (id, a) => AppTurn(a, now, today, SpawnFor(spawns, id));
    LoadAppsFromComplete(reg, 0, turn);
    var k :| 0 <= k < |reg.order| && reg.order[k] == id;
  }

  /** A `load_apps` pass that runs to the end logs exactly what the turns
      of the registered apps log: each app's lines are in the log, and
      every line of the log is some app's. */
  lemma LoadAppsLog(reg: Registry, now: Clock, today: Result<Day, AppError>,
                    spawns: map<string, string>)
    requires Valid(reg)
    requires LoadApps(reg, now, today, spawns).abort.None?
    ensures forall id, e :: id in reg.apps && e in AppTurn(reg.apps[id], now, today, SpawnFor(spawns, id)).log ==>
              e in LoadApps(reg, now, today, spawns).log
    ensures forall e :: e in LoadApps(reg, now, today, spawns).log ==>
              exists id :: id in reg.apps && e in AppTurn(reg.apps[id], now, today, SpawnFor(spawns, id)).log
  {
    var turn := (id, a) => AppTurn(a, now, today, SpawnFor(spawns, id));
    LoadAppsFromLog(reg, 0, turn);
    TurnLogsMembers(reg, 0, |reg.order|, turn);
    forall id, e | id in reg.apps && e in AppTurn(reg.apps[id], now, today, SpawnFor(spawns, id)).log
      ensures e in LoadApps(reg, now, today, spawns).log
    {
      var k :| 0 <= k < |reg.order| && reg.order[k] == id;
      assert e in turn(reg.order[k], reg.apps[reg.order[k]]).log;
    }
  }

  /** An exception escapes the pass only through an app whose
      configuration has no name: every other failure is caught and logged. */
  lemma LoadAppsAbortsOnlyOnNameless(reg: Registry, now: Clock, today: Result<Day, AppError>,
                                     spawns: map<string, string>)
    requires Valid(reg)
    requires forall id :: id in reg.apps ==> AppName(reg.apps[id].config).Ok?
    ensures LoadApps(reg, now, today, spawns).abort.None?
  {
    var turn := (id, a) => AppTurn(a, now, today, SpawnFor(spawns, id));
    LoadAppsFromAbort(reg, 0, turn);
    forall k | 0 <= k < |reg.order| ensures turn(reg.order[k], reg.apps[reg.order[k]]).fatal.None? {
      var id := reg.order[k];
      NamedTurnNeverFatal(reg.apps[id], now, today, SpawnFor(spawns, id));
    }
  }

  lemma NamedTurnNeverFatal(a: AppState, now: Clock, today: Result<Day, AppError>, spawn: Option<string>)
    requires AppName(a.config).Ok?
    ensures AppTurn(a, now, today, spawn).fatal.None?
  {
  }

  /** The process and suppression instant of a tracked app survive a
      reload; only its configuration may change. */
  predicate SameRun(a: AppState, b: AppState) {
    a.id == b.id && a.process == b.process && a.nextWorkDate == b.nextWorkDate
  }

  /** The body of the `read_configs` loop for one listed id: a tracked app
      has its configuration re-read in place; an untracked one is loaded and
      registered, and a disabled newcomer is reported as disabled. An
      unreadable file, or a disabled newcomer without a name, raises. */
  function ReadOne(reg: Registry, id: string, store: map<string, ConfigFile>): (r: Pass)
    requires Valid(reg)
    ensures Valid(r.reg)
    ensures |reg.order| <= |r.reg.order| && r.reg.order[..|reg.order|] == reg.order
    ensures r.reg.order == if id !in reg.apps && LoadConfig(store, id).Ok? then reg.order + [id] else reg.order
    ensures forall x :: x in reg.apps && x != id ==> x in r.reg.apps && r.reg.apps[x] == reg.apps[x]
    ensures id in reg.apps ==> id in r.reg.apps && SameRun(r.reg.apps[id], reg.apps[id])
    ensures forall x :: x in r.reg.apps && x !in reg.apps ==>
              x == id && LoadConfig(store, id).Ok? && r.reg.apps[x] == Loaded(id, store[id].config)
    ensures r.abort.None? <==>
              LoadConfig(store, id).Ok? &&
              (id in reg.apps || Enabled(store[id].config) || AppName(store[id].config).Ok?)
    ensures r.abort.None? ==> id in r.reg.apps && r.reg.apps[id].config == store[id].config
    ensures r.log == if id !in reg.apps && LoadConfig(store, id).Ok? && !Enabled(store[id].config) &&
                        AppName(store[id].config).Ok?
                     then [AppEntry(AppName(store[id].config).value, DisabledNotice)]
                     else []
  {
    if id in reg.apps then
      match LoadConfig(store, id)
      case Err(e) => Pass(reg, [], Some(e))
      case Ok(c) => Pass(Put(reg, id, Reload(reg.apps[id], c)), [], None)
    else
      match LoadApp(reg, id, store)
      case Err(e) => Pass(reg, [], Some(e))
      case Ok(loaded) =>
        var c := loaded.apps[id].config;
        assert c == store[id].config;
        if Enabled(c) then Pass(loaded, [], None)
        else
          match AppName(c)
          case Err(e) => Pass(loaded, [], Some(e))
          case Ok(name) => Pass(loaded, [AppEntry(name, DisabledNotice)], None)
  }

  /** `read_configs` over the listed ids, in order; the first exception
      ends the pass. */
  function ReadConfigs(reg: Registry, ids: seq<string>, store: map<string, ConfigFile>): (r: Pass)
    requires Valid(reg)
    decreases |ids|
    ensures Valid(r.reg)
  {
    if |ids| == 0 then Pass(reg, [], None)
    else
      var step := ReadOne(reg, ids[0], store);
      if step.abort.Some? then step
      else
        var rest := ReadConfigs(step.reg, ids[1..], store);
        Pass(rest.reg, step.log + rest.log, rest.abort)
  }

  /** Tracked apps stay tracked and keep their process and suppression
      instant, and keep their place in the registration order: reloading
      never registers an id twice, restarts or stops anything. */
  lemma ReadConfigsKeepsRuns(reg: Registry, ids: seq<string>, store: map<string, ConfigFile>)
    requires Valid(reg)
    ensures var r := ReadConfigs(reg, ids, store);
            && |reg.order| <= |r.reg.order| && r.reg.order[..|reg.order|] == reg.order
            && forall id :: id in reg.apps ==> id in r.reg.apps && SameRun(r.reg.apps[id], reg.apps[id])
  {
    ReadConfigsKeepsOrder(reg, ids, store);
    forall id | id in reg.apps
      ensures id in ReadConfigs(reg, ids, store).reg.apps
      ensures SameRun(ReadConfigs(reg, ids, store).reg.apps[id], reg.apps[id])
    {
      ReadConfigsKeepsRunOf(reg, ids, store, id);
    }
  }

  /** One tracked app keeps its process and suppression across the pass. */
  lemma {:induction false} ReadConfigsKeepsRunOf(reg: Registry, ids: seq<string>, store: map<string, ConfigFile>,
                                                 id: string)
    requires Valid(reg) && id in reg.apps
    decreases |ids|
    ensures id in ReadConfigs(reg, ids, store).reg.apps
    ensures SameRun(ReadConfigs(reg, ids, store).reg.apps[id], reg.apps[id])
  {
    if |ids| > 0 {
      var step := ReadOne(reg, ids[0], store);
      if step.abort.None? {
        assert id in step.reg.apps && SameRun(step.reg.apps[id], reg.apps[id]);
        ReadConfigsKeepsRunOf(step.reg, ids[1..], store, id);
        assert ReadConfigs(reg, ids, store).reg == ReadConfigs(step.reg, ids[1..], store).reg;
      }
    }
  }

  /** The registration order only grows at its end. */
  lemma {:induction false} ReadConfigsKeepsOrder(reg: Registry, ids: seq<string>, store: map<string, ConfigFile>)
    requires Valid(reg)
    decreases |ids|
    ensures var r := ReadConfigs(reg, ids, store);
            |reg.order| <= |r.reg.order| && r.reg.order[..|reg.order|] == reg.order
  {
    if |ids| > 0 {
      var step := ReadOne(reg, ids[0], store);
      if step.abort.None? {
        ReadConfigsKeepsOrder(step.reg, ids[1..], store);
        var r := ReadConfigs(step.reg, ids[1..], store);
        assert r.reg.order[..|reg.order|] == r.reg.order[..|step.reg.order|][..|reg.order|];
      }
    }
  }

  /** Newly registered apps come from the listing, hold the configuration
      their file holds, and have not been started. */
  lemma {:induction false} ReadConfigsNewcomers(reg: Registry, ids: seq<string>, store: map<string, ConfigFile>)
    requires Valid(reg)
    decreases |ids|
    ensures var r := ReadConfigs(reg, ids, store);
            forall id :: id in r.reg.apps && id !in reg.apps ==>
              && id in ids
              && LoadConfig(store, id) == Ok(r.reg.apps[id].config)
              && SameRun(r.reg.apps[id], Loaded(id, r.reg.apps[id].config))
  {
    if |ids| > 0 {
      var step := ReadOne(reg, ids[0], store);
      if step.abort.None? {
        var rest := ReadConfigs(step.reg, ids[1..], store);
        assert ReadConfigs(reg, ids, store).reg == rest.reg;
        ReadConfigsNewcomers(step.reg, ids[1..], store);
        ReadConfigsKeepsRuns(step.reg, ids[1..], store);
        forall id | id in rest.reg.apps && id !in reg.apps
          ensures && id in ids
                  && LoadConfig(store, id) == Ok(rest.reg.apps[id].config)
                  && SameRun(rest.reg.apps[id], Loaded(id, rest.reg.apps[id].config))
        {
          if id in step.reg.apps {
            assert id == ids[0];
            ReadConfigsKeepsConfigOf(step.reg, ids[1..], store, id);
          }
        }
      }
    }
  }

  /** A pass that runs to the end has registered every listed id, each
      with the configuration its file holds now, disabled ones included. */
  lemma {:induction false} ReadConfigsRegistersAll(reg: Registry, ids: seq<string>, store: map<string, ConfigFile>)
    requires Valid(reg)
    requires ReadConfigs(reg, ids, store).abort.None?
    decreases |ids|
    ensures var r := ReadConfigs(reg, ids, store);
            forall id :: id in ids ==> id in r.reg.apps && LoadConfig(store, id) == Ok(r.reg.apps[id].config)
  {
    if |ids| > 0 {
      var step := ReadOne(reg, ids[0], store);
      ReadConfigsRegistersAll(step.reg, ids[1..], store);
      ReadConfigsKeepsConfigOf(step.reg, ids[1..], store, ids[0]);
      assert forall x :: x in ids ==> x == ids[0] || x in ids[1..];
    }
  }

  /** A tracked app whose configuration is what its file holds keeps that
      configuration through a pass: the store does not change during a
      tick. */
  lemma {:induction false} ReadConfigsKeepsConfigOf(reg: Registry, ids: seq<string>, store: map<string, ConfigFile>,
                                                    id: string)
    requires Valid(reg) && id in reg.apps && LoadConfig(store, id) == Ok(reg.apps[id].config)
    decreases |ids|
    ensures var r := ReadConfigs(reg, ids, store);
            id in r.reg.apps && r.reg.apps[id].config == reg.apps[id].config
  {
    if |ids| > 0 {
      var step := ReadOne(reg, ids[0], store);
      if step.abort.None? {
        ReadConfigsKeepsConfigOf(step.reg, ids[1..], store, id);
      }
    }
  }

  /** A listed configuration that `read_configs` can always get past: its
      file reads, and it is enabled or carries a name. */
  predicate ReadsCleanly(store: map<string, ConfigFile>, id: string) {
    LoadConfig(store, id).Ok? && (Enabled(store[id].config) || AppName(store[id].config).Ok?)
  }

  /** `read_configs` runs to the end when every listed configuration reads
      cleanly, and otherwise ends only because of a listed one that does
      not. */
  lemma {:induction false} ReadConfigsAbortCause(reg: Registry, ids: seq<string>, store: map<string, ConfigFile>)
    requires Valid(reg)
    decreases |ids|
    ensures (forall id :: id in ids ==> ReadsCleanly(store, id)) ==> ReadConfigs(reg, ids, store).abort.None?
    ensures ReadConfigs(reg, ids, store).abort.Some? ==> exists id :: id in ids && !ReadsCleanly(store, id)
  {
    if |ids| > 0 {
      var step := ReadOne(reg, ids[0], store);
      assert ids[0] in ids;
      if step.abort.None? {
        ReadConfigsAbortCause(step.reg, ids[1..], store);
        assert forall x :: x in ids[1..] ==> x in ids;
      }
    }
  }

  /** `e` is the disabled notice, under its name, of a listed app whose
      file reads and says it is disabled. */
  predicate NoticeOfListed(ids: seq<string>, store: map<string, ConfigFile>, e: Entry) {
    exists id :: && id in ids && LoadConfig(store, id).Ok? && !Enabled(store[id].config)
                 && AppName(store[id].config).Ok?
                 && e == AppEntry(AppName(store[id].config).value, DisabledNotice)
  }

  /** Everything `read_configs` logs is the disabled notice of a listed,
      disabled app, under its name. */
  lemma {:induction false} ReadConfigsLog(reg: Registry, ids: seq<string>, store: map<string, ConfigFile>)
    requires Valid(reg)
    decreases |ids|
    ensures forall e :: e in ReadConfigs(reg, ids, store).log ==> NoticeOfListed(ids, store, e)
  {
    if |ids| > 0 {
      var step := ReadOne(reg, ids[0], store);
      forall e | e in step.log
        ensures NoticeOfListed(ids, store, e)
      {
        assert ids[0] in ids;
      }
      if step.abort.None? {
        var rest := ReadConfigs(step.reg, ids[1..], store);
        ReadConfigsLog(step.reg, ids[1..], store);
        forall e | e in rest.log
          ensures NoticeOfListed(ids, store, e)
        {
          var id :| && id in ids[1..] && LoadConfig(store, id).Ok? && !Enabled(store[id].config)
                    && AppName(store[id].config).Ok?
                    && e == AppEntry(AppName(store[id].config).value, DisabledNotice);
          assert id in ids;
        }
      }
    }
  }

  /** A pass that runs to the end logs the disabled notice of every listed
      newcomer whose file reads, disables it and names it. */
  lemma {:induction false} ReadConfigsLogsNotices(reg: Registry, ids: seq<string>, store: map<string, ConfigFile>)
    requires Valid(reg)
    requires ReadConfigs(reg, ids, store).abort.None?
    decreases |ids|
    ensures forall id :: && id in ids && id !in reg.apps && LoadConfig(store, id).Ok?
                         && !Enabled(store[id].config) && AppName(store[id].config).Ok? ==>
              AppEntry(AppName(store[id].config).value, DisabledNotice) in ReadConfigs(reg, ids, store).log
  {
    if |ids| > 0 {
      var step := ReadOne(reg, ids[0], store);
      var rest := ReadConfigs(step.reg, ids[1..], store);
      assert ReadConfigs(reg, ids, store).log == step.log + rest.log;
      ReadConfigsLogsNotices(step.reg, ids[1..], store);
      forall id | && id in ids && id !in reg.apps && LoadConfig(store, id).Ok?
                  && !Enabled(store[id].config) && AppName(store[id].config).Ok?
        ensures AppEntry(AppName(store[id].config).value, DisabledNotice) in ReadConfigs(reg, ids, store).log
      {
        if id != ids[0] {
          assert id in ids[1..] && id !in step.reg.apps;
        }
      }
    }
  }

  /** A tracked app whose id is not listed leaves the pass as it entered. */
  lemma {:induction false} ReadConfigsKeepsUnlisted(reg: Registry, ids: seq<string>, store: map<string, ConfigFile>,
                                                    id: string)
    requires Valid(reg) && id in reg.apps && id !in ids
    decreases |ids|
    ensures var r := ReadConfigs(reg, ids, store);
            id in r.reg.apps && r.reg.apps[id] == reg.apps[id]
  {
    if |ids| > 0 {
      var step := ReadOne(reg, ids[0], store);
      assert id != ids[0] && id !in ids[1..];
      if step.abort.None? {
        ReadConfigsKeepsUnlisted(step.reg, ids[1..], store, id);
      }
    }
  }

  /** The listed ids that a pass registers, in listing order: each id not
      already in `known` and not listed earlier. */
  function Fresh(known: seq<string>, ids: seq<string>): (added: seq<string>)
    decreases |ids|
  {
    if |ids| == 0 then []
    else if ids[0] in known then Fresh(known, ids[1..])
    else [ids[0]] + Fresh(known + [ids[0]], ids[1..])
  }

  /** The disabled notice `read_configs` logs for a newcomer: one line when
      its file reads, disables it and names it, none otherwise. */
  function NoticeFor(store: map<string, ConfigFile>, id: string): (log: seq<Entry>)
    ensures |log| <= 1
  {
    if LoadConfig(store, id).Ok? && !Enabled(store[id].config) && AppName(store[id].config).Ok?
    then [AppEntry(AppName(store[id].config).value, DisabledNotice)]
    else []
  }

  /** The notices of the newcomers `added`, in that order. */
  function Notices(store: map<string, ConfigFile>, added: seq<string>): (log: seq<Entry>)
    decreases |added|
  {
    if |added| == 0 then [] else NoticeFor(store, added[0]) + Notices(store, added[1..])
  }

  /** A `read_configs` pass that runs to the end appends the newcomers to
      the registration order in listing order, which is the order
      `load_apps` then takes them in, and logs their disabled notices in
      that same order. */
  lemma ReadConfigsOrder(reg: Registry, ids: seq<string>, store: map<string, ConfigFile>)
    requires Valid(reg)
    requires ReadConfigs(reg, ids, store).abort.None?
    ensures ReadConfigs(reg, ids, store).reg.order == reg.order + Fresh(reg.order, ids)
    ensures ReadConfigs(reg, ids, store).log == Notices(store, Fresh(reg.order, ids))
  {
    ReadConfigsAppendsFresh(reg, ids, store);
    ReadConfigsNoticesInOrder(reg, ids, store);
  }

  /** The registration order after `id` is read: `id` is appended unless
      it is already registered. */
  function Next(known: seq<string>, id: string): (order: seq<string>)
    ensures id in order
  {
    if id in known then known else known + [id]
  }

  /** Unfolding `Fresh` by one listed id. */
  lemma FreshHead(known: seq<string>, ids: seq<string>)
    requires |ids| > 0
    ensures known + Fresh(known, ids) == Next(known, ids[0]) + Fresh(Next(known, ids[0]), ids[1..])
  {
    if ids[0] !in known {
      assert known + ([ids[0]] + Fresh(known + [ids[0]], ids[1..])) ==
             known + [ids[0]] + Fresh(known + [ids[0]], ids[1..]);
    }
  }

  /** The order half of `ReadConfigsOrder`. */
  lemma {:induction false} ReadConfigsAppendsFresh(reg: Registry, ids: seq<string>, store: map<string, ConfigFile>)
    requires Valid(reg)
    requires ReadConfigs(reg, ids, store).abort.None?
    decreases |ids|
    ensures ReadConfigs(reg, ids, store).reg.order == reg.order + Fresh(reg.order, ids)
  {
    if |ids| > 0 {
      var step := ReadOne(reg, ids[0], store);
      assert step.abort.None? && ReadConfigs(reg, ids, store).reg == ReadConfigs(step.reg, ids[1..], store).reg;
      assert step.reg.order == Next(reg.order, ids[0]);
      ReadConfigsAppendsFresh(step.reg, ids[1..], store);
      FreshHead(reg.order, ids);
    }
  }

  /** The log half of `ReadConfigsOrder`. */
  lemma {:induction false} ReadConfigsNoticesInOrder(reg: Registry, ids: seq<string>, store: map<string, ConfigFile>)
    requires Valid(reg)
    requires ReadConfigs(reg, ids, store).abort.None?
    decreases |ids|
    ensures ReadConfigs(reg, ids, store).log == Notices(store, Fresh(reg.order, ids))
  {
    if |ids| > 0 {
      var id := ids[0];
      var step := ReadOne(reg, id, store);
      var rest := ReadConfigs(step.reg, ids[1..], store);
      assert ReadConfigs(reg, ids, store).log == step.log + rest.log;
      ReadConfigsNoticesInOrder(step.reg, ids[1..], store);
      if id in reg.order {
        assert step.reg.order == reg.order && step.log == [];
      } else {
        assert step.reg.order == reg.order + [id] && step.log == NoticeFor(store, id);
        var f := Fresh(reg.order + [id], ids[1..]);
        assert Fresh(reg.order, ids) == [id] + f;
        assert Notices(store, [id] + f) == NoticeFor(store, id) + Notices(store, f);
      }
    }
  }

  /** One reconciliation tick: discover and (re)load configurations, then
      give every registered app its turn. The weekday is that of the tick's
      clock reading, looked up with the corrected `parse_today`
      (`ParseTodayFixed`); with the lookup as written every Sunday turn of
      an app with a day list fails instead (`SundayTurnFails`). */
  function Tick(reg: Registry, entries: seq<DirEntry>, store: map<string, ConfigFile>, now: Clock,
                spawns: map<string, string>): (r: Pass)
    requires Valid(reg)
    ensures Valid(r.reg)
    ensures var read := ReadConfigs(reg, ListConfigs(entries), store);
            read.abort.Some? ==> r == read
    ensures var read := ReadConfigs(reg, ListConfigs(entries), store);
            read.abort.None? ==>
              r.log == read.log + LoadApps(read.reg, now, ParseTodayFixed(IsoWeekday(now.day)), spawns).log
    ensures var read := ReadConfigs(reg, ListConfigs(entries), store);
            var loads := LoadApps(read.reg, now, ParseTodayFixed(IsoWeekday(now.day)), spawns);
            read.abort.None? ==> r.reg == loads.reg && r.abort == loads.abort
  {
    var read := ReadConfigs(reg, ListConfigs(entries), store);
    if read.abort.Some? then read
    else
      var loads := LoadApps(read.reg, now, ParseTodayFixed(IsoWeekday(now.day)), spawns);
      Pass(loads.reg, read.log + loads.log, loads.abort)
  }

  /** A tick runs to the end when every listed configuration file reads
      and names its app, and every tracked app is still listed. */
  lemma TickCompletes(reg: Registry, entries: seq<DirEntry>, store: map<string, ConfigFile>, now: Clock,
                      spawns: map<string, string>)
    requires Valid(reg)
    requires forall id :: id in ListConfigs(entries) ==>
               LoadConfig(store, id).Ok? && AppName(store[id].config).Ok?
    requires forall id :: id in reg.apps ==> id in ListConfigs(entries)
    ensures Tick(reg, entries, store, now, spawns).abort.None?
  {
    var ids := ListConfigs(entries);
    ReadConfigsAbortCause(reg, ids, store);
    var read := ReadConfigs(reg, ids, store);
    ReadConfigsRegistersAll(reg, ids, store);
    ReadConfigsNewcomers(reg, ids, store);
    forall id | id in read.reg.apps ensures AppName(read.reg.apps[id].config).Ok? {
      assert id in ids;
    }
    LoadAppsAbortsOnlyOnNameless(read.reg, now, ParseTodayFixed(IsoWeekday(now.day)), spawns);
  }

  /** On a tick that runs to the end, as `TickCompletes` gives it, every
      listed app that is enabled, idle and inside its working time under the
      corrected weekday lookup, and whose program can be spawned, is started:
      it is running afterwards, with the command line its configuration
      gives. */
  lemma TickStartsEligible(reg: Registry, entries: seq<DirEntry>, store: map<string, ConfigFile>,
                           now: Clock, spawns: map<string, string>, id: string)
    requires Valid(reg)
    requires forall x :: x in ListConfigs(entries) ==> LoadConfig(store, x).Ok? && AppName(store[x].config).Ok?
    requires forall x :: x in reg.apps ==> x in ListConfigs(entries)
    requires id in ListConfigs(entries) && LoadConfig(store, id).Ok?
    requires Enabled(store[id].config) && Argv(store[id].config).Ok? && id !in spawns
    requires id in reg.apps ==> !IsRunning(reg.apps[id])
    requires InWorkingTime(store[id].config, if id in reg.apps then reg.apps[id].nextWorkDate else None,
                           now, ParseTodayFixed(IsoWeekday(now.day))) == Ok(true)
    ensures id in Tick(reg, entries, store, now, spawns).reg.apps
    ensures IsRunning(Tick(reg, entries, store, now, spawns).reg.apps[id])
    ensures Tick(reg, entries, store, now, spawns).reg.apps[id].process.argv == Argv(store[id].config).value
  {
    var ids := ListConfigs(entries);
    var today := ParseTodayFixed(IsoWeekday(now.day));
    var read := ReadConfigs(reg, ids, store);
    TickCompletes(reg, entries, store, now, spawns);
    assert read.abort.None?;
    ReadConfigsRegistersAll(reg, ids, store);
    ReadConfigsKeepsRuns(reg, ids, store);
    ReadConfigsNewcomers(reg, ids, store);
    var a := read.reg.apps[id];
    assert a.config == store[id].config;
    assert !IsRunning(a) && a.nextWorkDate == (if id in reg.apps then reg.apps[id].nextWorkDate else None);
    LoadAppsIsolatesApps(read.reg, now, today, spawns, id);
    assert SpawnFor(spawns, id) == None;
    var started := StartIfEligible(a, true, now, today, None);
    assert started == Start(a, None);
  }

  /** A tick never starts or restarts an app that was running when it
      began: the process is still the one it had. */
  lemma TickKeepsRunningProcess(reg: Registry, entries: seq<DirEntry>, store: map<string, ConfigFile>,
                                now: Clock, spawns: map<string, string>, id: string)
    requires Valid(reg) && id in reg.apps && IsRunning(reg.apps[id])
    ensures id in Tick(reg, entries, store, now, spawns).reg.apps
    ensures Tick(reg, entries, store, now, spawns).reg.apps[id].process == reg.apps[id].process
  {
    var read := ReadConfigs(reg, ListConfigs(entries), store);
    ReadConfigsKeepsRuns(reg, ListConfigs(entries), store);
    if read.abort.None? {
      LoadAppsSkipsDisabledAndRunning(read.reg, now, ParseTodayFixed(IsoWeekday(now.day)), spawns, id);
    }
  }

  /** A tick never starts an app whose configuration, as the tick read it,
      disables it. */
  lemma TickNeverStartsDisabled(reg: Registry, entries: seq<DirEntry>, store: map<string, ConfigFile>,
                                now: Clock, spawns: map<string, string>, id: string)
    requires Valid(reg)
    requires ReadConfigs(reg, ListConfigs(entries), store).abort.None?
    requires id in ReadConfigs(reg, ListConfigs(entries), store).reg.apps
    requires !Enabled(ReadConfigs(reg, ListConfigs(entries), store).reg.apps[id].config)
    ensures id in Tick(reg, entries, store, now, spawns).reg.apps
    ensures Tick(reg, entries, store, now, spawns).reg.apps[id].process ==
            (if id in reg.apps then reg.apps[id].process else NoProcess)
  {
    var ids := ListConfigs(entries);
    var read := ReadConfigs(reg, ids, store);
    ReadConfigsKeepsRuns(reg, ids, store);
    ReadConfigsNewcomers(reg, ids, store);
    LoadAppsSkipsDisabledAndRunning(read.reg, now, ParseTodayFixed(IsoWeekday(now.day)), spawns, id);
  }

  /** An app that exits on day D, seen by its listener, is not restarted
      by a tick later on day D, and is restarted by a tick on day D + 1
      when its schedule allows it then. */
  lemma CrashThenNextDay(a: AppState, code: int, crash: Clock, later: Clock, tomorrow: Clock,
                         today: Result<Day, AppError>, spawn: Option<string>)
    requires a.process.Spawned? && a.process.listening
    requires Enabled(a.config) && AppName(a.config).Ok?
    requires later.day == crash.day && tomorrow.day == crash.day + 1
    requires spawn.None? && Argv(a.config).Ok?
    requires InWorkingTime(a.config, None, tomorrow, today) == Ok(true)
    ensures var b := ExitObserved(a, Some(code), crash);
            && AppTurn(b, later, today, spawn) == Turn(b, [], None)
            && IsRunning(AppTurn(b, tomorrow, today, spawn).app)
            && AppTurn(b, tomorrow, today, spawn).app.nextWorkDate.None?
  {
    var b := ExitObserved(a, Some(code), crash);
    ExitSuppressesUntilMidnight(a, code, crash, later, today);
    ExitSuppressesUntilMidnight(a, code, crash, tomorrow, today);
  }

  /** With the weekday lookup as written, on a Sunday an enabled idle app
      with a non-empty day list is not started: the lookup raises, and the
      failure is logged under the app's name. */
  lemma SundayTurnFails(a: AppState, now: Clock, spawn: Option<string>)
    requires IsoWeekday(now.day) == 7
    requires Enabled(a.config) && !IsRunning(a) && AppName(a.config).Ok?
    requires !Suppressed(a.nextWorkDate, now)
    requires DaysOfWeek(a.config).Ok? && |DaysOfWeek(a.config).value| > 0
    ensures AppTurn(a, now, ParseToday(IsoWeekday(now.day)), spawn) ==
            Turn(a, FailureEntries(AppName(a.config).value, IndexOutOfRange), None)
  {
    SundayFailsWithDays(a.config, a.nextWorkDate, now);
  }

  /** With the corrected lookup, an enabled idle app scheduled for Sundays,
      with no time bounds, is started by a Sunday turn. */
  lemma SundayTurnFixed(a: AppState, now: Clock, spawn: Option<string>)
    requires IsoWeekday(now.day) == 7
    requires Enabled(a.config) && !IsRunning(a) && !Suppressed(a.nextWorkDate, now)
    requires DaysOfWeek(a.config).Ok? && Sunday in DaysOfWeek(a.config).value
    requires StartWorktime(a.config) == Ok(None) && EndWorktime(a.config) == Ok(None)
    requires Argv(a.config).Ok? && spawn.None?
    ensures IsRunning(AppTurn(a, now, ParseTodayFixed(IsoWeekday(now.day)), spawn).app)
  {
    TodayFixedRoundTrip(Sunday);
    assert InWorkingTime(a.config, a.nextWorkDate, now, Ok(Sunday)) == Ok(true);
  }
}
