/** The exceptions the supervisor core can raise, one constructor per
    distinct cause, with the text `str(ex)` gives for each. */
module Errors {

  datatype AppError =
    /** `KeyError`: a required configuration key is absent. */
    | KeyMissing(key: string)
    /** `AttributeError` from the name lookup of a weekday tag. */
    | UnknownDayTag(tag: string)
    /** The explicit "DayOfWeek inválido!" exception of the weekday parser. */
    | InvalidDay
    /** `IndexError`: a list was indexed one past its end. */
    | IndexOutOfRange
    /** `TypeError`: the `args` value cannot extend the argument vector. */
    | ArgsNotIterable
    /** `ValueError` from `int()`: a time component is not a number. */
    | NotANumber(text: string)
    /** `ValueError` from `time()`: a component is out of its range. */
    | HourOutOfRange
    | MinuteOutOfRange
    | SecondOutOfRange
    /** Raised by `start()` on an app whose process is still running. */
    | AlreadyRunning
    /** Raised by `kill()` / `terminate()` on an app that is not running. */
    | NotRunning
    /** Raised by `load_app` on an id that is already registered. */
    | AlreadyLoaded
    /** The operating system refused to spawn the program. */
    | SpawnRefused(reason: string)
    /** The configuration file could not be opened or decoded. */
    | ConfigUnreadable(id: string)

  /** The message `str(ex)` produces for the exception. */
  function Describe(e: AppError): string {
    match e
    case KeyMissing(k) => "'" + k + "'"
    case UnknownDayTag(t) => "type object 'DayOfWeek' has no attribute '" + t + "'"
    case InvalidDay => "DayOfWeek inválido!"
    case IndexOutOfRange => "list index out of range"
    case ArgsNotIterable => "'args' is not iterable"
    case NotANumber(t) => "invalid literal for int() with base 10: '" + t + "'"
    case HourOutOfRange => "hour must be in 0..23"
    case MinuteOutOfRange => "minute must be in 0..59"
    case SecondOutOfRange => "second must be in 0..59"
    case AlreadyRunning => "O processo já está em funcionamento!"
    case NotRunning => "Não é possível iniciar matar um app que não foi iniciado!"
    case AlreadyLoaded => "Este aplicativo já foi carregado!"
    case SpawnRefused(r) => r
    case ConfigUnreadable(id) => "cannot read configuration " + id
  }
}
