/** The registry of apps (`StartupController`): discovering configuration
    files, loading and starting apps by id, and writing a new app's
    configuration. Directory listings, file existence and file contents are
    parameters. */
module Startup {
  import opened Wrappers
  import opened Errors
  import opened DayOfWeek
  import opened Times
  import opened Text
  import opened Settings
  import opened App

  const JsonSuffix: string := ".json"

  /** One entry of the apps directory. */
  datatype DirEntry = DirEntry(name: string, isFile: bool)

  /** An entry that `list_configs` reports. */
  predicate IsConfigFile(e: DirEntry)
    ensures IsConfigFile(e) <==> e.isFile && exists id :: id + JsonSuffix == e.name
  {
    if !e.isFile then false
    else if EndsWith(e.name, JsonSuffix) then
      var id := e.name[..|e.name| - |JsonSuffix|];
      assert id + JsonSuffix == e.name;
      true
    else
      forall id ensures id + JsonSuffix != e.name {
        StripJsonRoundTrip(id);
      }
      false
  }

  /** `item[0:len(item) - 5]`. */
  function StripJson(name: string): (id: string)
    requires EndsWith(name, JsonSuffix)
    ensures id + JsonSuffix == name
  {
    name[..|name| - |JsonSuffix|]
  }

  /** Appending the suffix and stripping it again gives the id back. */
  lemma StripJsonRoundTrip(id: string)
    ensures EndsWith(id + JsonSuffix, JsonSuffix)
    ensures StripJson(id + JsonSuffix) == id
  {
    assert (id + JsonSuffix)[|id|..] == JsonSuffix;
  }

  /** `list_configs`: the ids of the files ending in `.json`, in listing
      order; directories and other files are skipped. */
  function ListConfigs(entries: seq<DirEntry>): (ids: seq<string>)
    ensures |ids| <= |entries|
    ensures forall id :: id in ids <==> DirEntry(id + JsonSuffix, true) in entries
  {
    if |entries| == 0 then []
    else
      var rest := ListConfigs(entries[1..]);
      var e := entries[0];
      assert forall x :: x in entries <==> x == e || x in entries[1..];
      if IsConfigFile(e) then
        assert DirEntry(StripJson(e.name) + JsonSuffix, true) == e;
        forall id ensures DirEntry(id + JsonSuffix, true) == e ==> id == StripJson(e.name) {
          if DirEntry(id + JsonSuffix, true) == e {
            StripJsonRoundTrip(id);
          }
        }
        [StripJson(e.name)] + rest
      else
        forall id ensures DirEntry(id + JsonSuffix, true) != e {
          StripJsonRoundTrip(id);
        }
        rest
  }

  /** Listing a directory in two parts lists the ids of the first part,
      then those of the second. With the contract of `ListConfigs` on a
      one-entry listing (at most one id, there exactly when the entry is a
      configuration file), this fixes the ids in listing order. */
  lemma {:induction false} ListConfigsAppend(a: seq<DirEntry>, b: seq<DirEntry>)
    decreases |a|
    ensures ListConfigs(a + b) == ListConfigs(a) + ListConfigs(b)
  {
    if |a| == 0 {
      assert a + b == b;
    } else {
      assert (a + b)[0] == a[0];
      assert (a + b)[1..] == a[1..] + b;
      ListConfigsAppend(a[1..], b);
    }
  }

  /** A configuration file as read from disk: decoded, or unreadable (missing,
      not JSON, or not an object). */
  datatype ConfigFile = Decoded(config: Config) | Undecodable

  /** `SettingsController(path).load()` for the id's file. */
  function LoadConfig(store: map<string, ConfigFile>, id: string): (r: Result<Config, AppError>)
    ensures r.Ok? <==> id in store && store[id].Decoded?
    ensures r.Ok? ==> r.value == store[id].config
    ensures r.Err? ==> r.error == ConfigUnreadable(id)
  {
    if id in store && store[id].Decoded? then Ok(store[id].config) else Err(ConfigUnreadable(id))
  }

  /** The registry: apps by id, plus the order in which they were
      registered, which is the order Python's dict iterates them in. */
  datatype Registry = Registry(order: seq<string>, apps: map<string, AppState>)

  /** The id registered at position `i`. */
  function At(order: seq<string>, i: int): string
    requires 0 <= i < |order|
  {
    order[i]
  }

  /** Every id is registered once, and exactly the registered ids are
      tracked. Two positions are compared only where a proof names them
      through `At`, which keeps string comparisons out of unrelated proofs. */
  ghost predicate Valid(reg: Registry) {
    && (forall i, j {:trigger At(reg.order, i), At(reg.order, j)} ::
          0 <= i < j < |reg.order| ==> At(reg.order, i) != At(reg.order, j))
    && (forall id :: id in reg.apps <==> id in reg.order)
  }

  /** Distinct positions of a valid registry hold distinct ids. */
  lemma Distinct(reg: Registry, i: nat, j: nat)
    requires Valid(reg) && i < j < |reg.order|
    ensures reg.order[i] != reg.order[j]
  {
    assert At(reg.order, i) != At(reg.order, j);
  }

  /** Registering a new id at the end keeps the registry valid. */
  lemma AppendKeepsValid(reg: Registry, id: string, a: AppState)
    requires Valid(reg) && id !in reg.apps
    ensures Valid(Registry(reg.order + [id], reg.apps[id := a]))
  {
    var o := reg.order + [id];
    forall i, j | 0 <= i < j < |o| ensures At(o, i) != At(o, j) {
      if j < |reg.order| {
        Distinct(reg, i, j);
      } else {
        assert o[i] == reg.order[i] && reg.order[i] in reg.order;
      }
    }
  }

  /** Replace one tracked app, leaving the order alone. */
  function Put(reg: Registry, id: string, a: AppState): (r: Registry)
    requires Valid(reg) && id in reg.apps
    ensures Valid(r) && r.order == reg.order
    ensures r.apps == reg.apps[id := a]
  {
    Registry(reg.order, reg.apps[id := a])
  }

  /** `load_app`: refuses an id that is already registered; otherwise reads
      its file and registers a fresh app at the end of the order. */
  function LoadApp(reg: Registry, id: string, store: map<string, ConfigFile>): (r: Result<Registry, AppError>)
    requires Valid(reg)
    ensures id in reg.apps ==> r == Err(AlreadyLoaded)
    ensures id !in reg.apps ==> (r.Ok? <==> LoadConfig(store, id).Ok?)
    ensures id !in reg.apps && r.Err? ==> r.error == ConfigUnreadable(id)
    ensures r.Ok? ==>
              && Valid(r.value)
              && r.value.order == reg.order + [id]
              && r.value.apps == reg.apps[id := Loaded(id, store[id].config)]
  {
    if id in reg.apps then Err(AlreadyLoaded)
    else
      var c :- LoadConfig(store, id);
      AppendKeepsValid(reg, id, Loaded(id, c));
      Ok(Registry(reg.order + [id], reg.apps[id := Loaded(id, c)]))
  }

  /** The registry after an operation, and the exception it raised. */
  datatype Outcome = Outcome(reg: Registry, err: Option<AppError>)

  /** `start_app(id, respect_dates)`: the tracked app, or one loaded on the
      spot, is started when `StartIfEligible` says so. */
  function StartApp(reg: Registry, id: string, respectDates: bool, store: map<string, ConfigFile>,
                    now: Clock, today: Result<Day, AppError>, spawn: Option<string>): (r: Outcome)
    requires Valid(reg)
    ensures Valid(r.reg)
    ensures id in reg.apps ==>
              var step := StartIfEligible(reg.apps[id], respectDates, now, today, spawn);
              r == Outcome(Put(reg, id, step.app), step.err)
    ensures id !in reg.apps && LoadConfig(store, id).Err? ==> r == Outcome(reg, Some(ConfigUnreadable(id)))
    ensures id !in reg.apps && LoadConfig(store, id).Ok? ==>
              var step := StartIfEligible(Loaded(id, store[id].config), respectDates, now, today, spawn);
              && r.reg.order == reg.order + [id]
              && r.reg.apps == reg.apps[id := step.app]
              && r.err == step.err
  {
    if id in reg.apps then
      var step := StartIfEligible(reg.apps[id], respectDates, now, today, spawn);
      Outcome(Put(reg, id, step.app), step.err)
    else
      match LoadApp(reg, id, store)
      case Err(e) => Outcome(reg, Some(e))
      case Ok(loaded) =>
        var step := StartIfEligible(loaded.apps[id], respectDates, now, today, spawn);
        Outcome(Put(loaded, id, step.app), step.err)
  }

  /** The id `create_config` derives from an app name: spaces dropped and
      letters lower-cased. */
  function ConfigStem(name: string): (stem: string)
    ensures ' ' !in stem
    ensures forall i :: 0 <= i < |stem| ==> !('A' <= stem[i] <= 'Z')
    ensures |stem| == |name| - multiset(name)[' ']
    ensures ' ' !in name && (forall i :: 0 <= i < |name| ==> !('A' <= name[i] <= 'Z')) ==> stem == name
  {
    var t := RemoveSpaces(name);
    var stem := Lower(t);
    assert forall i :: 0 <= i < |t| ==> t[i] != ' ';
    stem
  }

  /** A space anywhere in a name does not change its id. */
  lemma StemIgnoresSpaces(a: string, b: string)
    ensures ConfigStem(a + " " + b) == ConfigStem(a + b)
  {
    RemoveSpacesAppend(a + " ", b);
    RemoveSpacesAppend(a, " ");
    RemoveSpacesAppend(a, b);
  }

  /** The case of an ASCII letter anywhere in a name does not change its
      id. */
  lemma StemIgnoresCase(a: string, c: char, b: string)
    requires 'A' <= c <= 'Z'
    ensures ConfigStem(a + [c] + b) == ConfigStem(a + [LowerChar(c)] + b)
  {
    var d := LowerChar(c);
    RemoveSpacesAppend(a + [c], b);
    RemoveSpacesAppend(a, [c]);
    RemoveSpacesAppend(a + [d], b);
    RemoveSpacesAppend(a, [d]);
    assert RemoveSpaces([c]) == [c] && RemoveSpaces([d]) == [d];
    var x, y := RemoveSpaces(a), RemoveSpaces(b);
    LowerAppend(x + [c], y);
    LowerAppend(x, [c]);
    LowerAppend(x + [d], y);
    LowerAppend(x, [d]);
    assert Lower([c]) == [d] == Lower([d]);
  }

  /** The file `create_config` writes: the derived id plus `.json`. */
  function ConfigFileName(name: string): (f: string)
    ensures EndsWith(f, JsonSuffix)
    ensures StripJson(f) == ConfigStem(name)
  {
    StripJsonRoundTrip(ConfigStem(name));
    ConfigStem(name) + JsonSuffix
  }

  /** The configuration `create_config` writes. */
  function NewConfig(name: string, program: string, days: seq<Day>): (c: Config)
    ensures AppName(c) == Ok(name) && Argv(c) == Ok([program])
    ensures Enabled(c) && !ListenProcess(c)
    ensures c.days == Some(TagEntries(days))
    ensures c.startWorktime.None? && c.endWorktime.None?
  {
    assert [program] + [] == [program];
    Config(Some(name), Some(program), Some(ArgList([])), None, None, Some(TagEntries(days)), None, None)
  }

  /** What `create_config` reports and the file it writes, if any. */
  datatype Created = Created(ok: bool, written: Option<(string, Config)>)

  /** `create_config`: refuses a name whose file already exists, otherwise
      writes the new configuration; `writeOk` is false when the file cannot
      be written, which is reported as failure. */
  function CreateConfig(name: string, program: string, days: seq<Day>,
                        existing: set<string>, writeOk: bool): (r: Created)
    ensures r.ok <==> r.written.Some?
    ensures r.ok <==> ConfigFileName(name) !in existing && writeOk
    ensures r.ok ==> r.written.value == (ConfigFileName(name), NewConfig(name, program, days))
  {
    var file := ConfigFileName(name);
    if file in existing then Created(false, None)
    else if !writeOk then Created(false, None)
    else Created(true, Some((file, NewConfig(name, program, days))))
  }

  /** Once a name's file exists, every name with the same id, such as one
      differing only in spaces or letter case, is refused. */
  lemma SameStemRefused(name: string, other: string, program: string, days: seq<Day>,
                        existing: set<string>, writeOk: bool)
    requires ConfigStem(other) == ConfigStem(name)
    requires CreateConfig(name, program, days, existing, true).ok
    ensures var written := CreateConfig(name, program, days, existing, true).written.value.0;
            !CreateConfig(other, program, days, existing + {written}, writeOk).ok
  {
  }

  /** A created configuration is found by the next directory scan under its
      derived id, and reads back as an enabled, non-listening app with the
      same name, program and days and no time bounds. */
  lemma CreatedConfigReadsBack(name: string, program: string, days: seq<Day>,
                               existing: set<string>, entries: seq<DirEntry>)
    requires CreateConfig(name, program, days, existing, true).ok
    requires DirEntry(ConfigFileName(name), true) in entries
    ensures var c := CreateConfig(name, program, days, existing, true).written.value.1;
            && StripJson(ConfigFileName(name)) in ListConfigs(entries)
            && Enabled(c) && !ListenProcess(c)
            && AppName(c) == Ok(name)
            && Argv(c) == Ok([program])
            && DaysOfWeek(c) == Ok(days)
            && StartWorktime(c) == Ok(None) && EndWorktime(c) == Ok(None)
  {
    TagsReadBack(days);
    assert [program] + [] == [program];
    var id := StripJson(ConfigFileName(name));
    assert id + JsonSuffix == ConfigFileName(name);
  }
}
