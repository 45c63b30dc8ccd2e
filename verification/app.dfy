/** One supervised app (`AppController`): its configuration, the process
    started for it, if any, and the instant before which it must not be
    restarted. Spawning, the output pipe and the listener thread are not
    modelled; what remains is the state each of them changes. */
module App {
  import opened Wrappers
  import opened Errors
  import opened DayOfWeek
  import opened Times
  import opened Settings
  import opened Schedule

  /** The process last spawned for the app. `returncode` is what the last
      `poll()` recorded; `listening` holds while the output listener of this
      process has not yet seen the end of its output. */
  datatype Process =
    | NoProcess
    | Spawned(argv: seq<string>, returncode: Option<int>, listening: bool)

  datatype AppState = AppState(
    id: string,
    config: Config,
    process: Process,
    nextWorkDate: Option<Clock>)

  /** A fresh app as `load_app` creates it. */
  function Loaded(id: string, c: Config): (a: AppState)
    ensures a.id == id && a.config == c
    ensures !IsRunning(a) && a.nextWorkDate.None?
  {
    AppState(id, c, NoProcess, None)
  }

  /** `is_runing`: a process exists and no exit code has been recorded. */
  predicate IsRunning(a: AppState)
    ensures a.process.NoProcess? ==> !IsRunning(a)
    ensures a.process.Spawned? ==> (IsRunning(a) <==> a.process.returncode.None?)
  {
    a.process.Spawned? && a.process.returncode.None?
  }

  /** The app after an operation, and the exception the operation raised. */
  datatype Step = Step(app: AppState, err: Option<AppError>)

  /** `start()`. `spawn` is the operating system's answer: `None` when the
      program was spawned, `Some(reason)` when it refused. The suppression
      instant is cleared before the spawn is attempted, so a refused spawn
      still clears it. */
  function Start(a: AppState, spawn: Option<string>): (r: Step)
    ensures r.app.id == a.id && r.app.config == a.config
    ensures IsRunning(a) ==> r == Step(a, Some(AlreadyRunning))
    ensures !IsRunning(a) && Argv(a.config).Err? ==> r == Step(a, Some(Argv(a.config).error))
    ensures !IsRunning(a) && Argv(a.config).Ok? && spawn.Some? ==>
              r == Step(a.(nextWorkDate := None), Some(SpawnRefused(spawn.value)))
    ensures r.err.None? <==> !IsRunning(a) && Argv(a.config).Ok? && spawn.None?
    ensures r.err.None? ==>
              && IsRunning(r.app)
              && r.app.nextWorkDate.None?
              && r.app.process.argv == Argv(a.config).value
              && r.app.process.listening == ListenProcess(a.config)
  {
    if IsRunning(a) then Step(a, Some(AlreadyRunning))
    else
      match Argv(a.config)
      case Err(e) => Step(a, Some(e))
      case Ok(argv) =>
        var cleared := a.(nextWorkDate := None);
        if spawn.Some? then Step(cleared, Some(SpawnRefused(spawn.value)))
        else Step(cleared.(process := Spawned(argv, None, ListenProcess(a.config))), None)
  }

  datatype Signal = Kill | Terminate

  /** `kill()` and `terminate()`: the signal is sent only to a running
      process and nothing in the app changes; its end is seen later, by the
      listener. */
  function Stop(a: AppState, signal: Signal): (r: Result<Signal, AppError>)
    ensures r.Ok? <==> IsRunning(a)
    ensures r.Ok? ==> r.value == signal
    ensures r.Err? ==> r.error == NotRunning
  {
    if !IsRunning(a) then Err(NotRunning) else Ok(signal)
  }

  /** The listener reaching the end of the process's output at `at`: the
      `poll()` result becomes the return code and the listener stops. It then
      logs the exit under the app's name and only after that suppresses
      restarts until the next midnight, so a configuration without a name
      makes the log call raise, which ends the listener with no suppression.
      Without a live listener nothing happens. */
  function ExitObserved(a: AppState, polled: Option<int>, at: Clock): (r: AppState)
    ensures !(a.process.Spawned? && a.process.listening) ==> r == a
    ensures a.process.Spawned? && a.process.listening ==>
              && r.id == a.id && r.config == a.config
              && r.process == Spawned(a.process.argv, polled, false)
              && (IsRunning(r) <==> polled.None?)
              && (AppName(a.config).Ok? ==> r.nextWorkDate == Some(NextMidnight(at)))
              && (AppName(a.config).Err? ==> r.nextWorkDate == a.nextWorkDate)
  {
    if a.process.Spawned? && a.process.listening then
      var ended := a.(process := a.process.(returncode := polled, listening := false));
      if AppName(a.config).Ok? then ended.(nextWorkDate := Some(NextMidnight(at))) else ended
    else a
  }

  /** After a signal is sent to a running process and its listener sees it
      exit with a code, the app is no longer running and a second signal is
      refused. */
  lemma StopThenExit(a: AppState, signal: Signal, again: Signal, code: int, at: Clock)
    requires Stop(a, signal).Ok? && a.process.listening
    ensures !IsRunning(ExitObserved(a, Some(code), at))
    ensures Stop(ExitObserved(a, Some(code), at), again) == Err(NotRunning)
  {
  }

  /** Once the listener has recorded an exit on day `at.day`, the app is not
      eligible for the rest of that day and, from the next day on, it is as
      eligible as if it had never been suppressed. */
  lemma {:induction false} ExitSuppressesUntilMidnight(a: AppState, code: int, at: Clock, now: Clock,
                                                       today: Result<Day, AppError>)
    requires a.process.Spawned? && a.process.listening && AppName(a.config).Ok?
    ensures var b := ExitObserved(a, Some(code), at);
            && !IsRunning(b)
            && (now.day <= at.day ==> InWorkingTime(b.config, b.nextWorkDate, now, today) == Ok(false))
            && (now.day > at.day ==>
                  InWorkingTime(b.config, b.nextWorkDate, now, today) == InWorkingTime(a.config, None, now, today))
  {
    var b := ExitObserved(a, Some(code), at);
    assert b.nextWorkDate == Some(NextMidnight(at));
    assert Suppressed(b.nextWorkDate, now) <==> now.day <= at.day;
  }

  /** An exit seen by the listener of an app whose configuration has lost
      its name records the exit code but sets no suppression: the app is
      idle and exactly as eligible as before the exit (`start()` cleared the
      suppression instant, so the same day included). */
  lemma NamelessExitNotSuppressed(a: AppState, code: int, at: Clock, now: Clock, today: Result<Day, AppError>)
    requires a.process.Spawned? && a.process.listening && AppName(a.config).Err?
    ensures var b := ExitObserved(a, Some(code), at);
            && !IsRunning(b) && b.nextWorkDate == a.nextWorkDate
            && InWorkingTime(b.config, b.nextWorkDate, now, today) == InWorkingTime(a.config, a.nextWorkDate, now, today)
  {
  }

  /** The app is not both running and suppressed. */
  predicate Consistent(a: AppState) {
    IsRunning(a) ==> a.nextWorkDate.None?
  }

  /** A successful start and an exit with a code both leave the app
      consistent, but an end of output whose `poll()` finds the process
      still alive leaves it running and suppressed at once. */
  lemma ConsistencyAcrossTransitions(a: AppState, spawn: Option<string>, polled: Option<int>, at: Clock)
    ensures Start(a, spawn).err.None? ==> Consistent(Start(a, spawn).app)
    ensures polled.Some? && a.process.Spawned? && a.process.listening ==>
              Consistent(ExitObserved(a, polled, at))
    ensures polled.None? && IsRunning(a) && a.process.listening && AppName(a.config).Ok? ==>
              !Consistent(ExitObserved(a, polled, at))
  {
  }

  /** Reloading the configuration touches neither the process nor the
      suppression instant; a running process keeps the argument vector it
      was started with. */
  function Reload(a: AppState, c: Config): (r: AppState)
    ensures r.id == a.id && r.config == c
    ensures r.process == a.process && r.nextWorkDate == a.nextWorkDate
    ensures IsRunning(r) <==> IsRunning(a)
  {
    a.(config := c)
  }

  /** `start_app` once the app is in hand: it is started when enabled and
      either inside its working time or `respect_dates` is off. The working
      time is evaluated first, so its exception is raised even when
      `respect_dates` is off. */
  function StartIfEligible(a: AppState, respectDates: bool, now: Clock,
                           today: Result<Day, AppError>, spawn: Option<string>): (r: Step)
    ensures r.app.id == a.id && r.app.config == a.config
    ensures InWorkingTime(a.config, a.nextWorkDate, now, today).Err? ==>
              r == Step(a, Some(InWorkingTime(a.config, a.nextWorkDate, now, today).error))
    ensures !Enabled(a.config) ==> r.app == a
    ensures respectDates && InWorkingTime(a.config, a.nextWorkDate, now, today) == Ok(false) ==>
              r == Step(a, None)
    ensures r.app != a ==>
              && Enabled(a.config)
              && InWorkingTime(a.config, a.nextWorkDate, now, today).Ok?
              && (InWorkingTime(a.config, a.nextWorkDate, now, today).value || !respectDates)
              && r == Start(a, spawn)
    ensures && Enabled(a.config)
            && InWorkingTime(a.config, a.nextWorkDate, now, today).Ok?
            && (InWorkingTime(a.config, a.nextWorkDate, now, today).value || !respectDates)
            ==> r == Start(a, spawn)
    ensures && InWorkingTime(a.config, a.nextWorkDate, now, today).Ok?
            && !(Enabled(a.config) && (InWorkingTime(a.config, a.nextWorkDate, now, today).value || !respectDates))
            ==> r == Step(a, None)
  {
    var inWorkingTime := InWorkingTime(a.config, a.nextWorkDate, now, today);
    if inWorkingTime.Err? then Step(a, Some(inWorkingTime.error))
    else if (inWorkingTime.value || !respectDates) && Enabled(a.config) then Start(a, spawn)
    else Step(a, None)
  }
}
