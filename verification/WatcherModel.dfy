/** Reloading the two configuration files: a reload loads both, records their modification times,
    and then delivers what it loaded; polls start one when a time exceeds the recorded one.
    Writes to the files come in between. */
module WatcherModel {
  import opened Options

  /** A file: its modification time, its content, and whether that content loads. */
  datatype File = File(mtime: nat, content: string, loads: bool)

  datatype Stage =
    | Started
    | LoadedConfig(config: string)
    | LoadedBoth(config: string, security: Option<string>)
    | Recorded(config: string, security: Option<string>)
    | Finished

  /** `clock` is the largest modification time given out so far. */
  datatype State = State(
    config: Option<File>,
    security: Option<File>,
    clock: nat,
    hasSecurity: bool,
    lastConfigMod: nat,
    lastSecurityMod: nat,
    reloads: seq<Stage>,
    delivered: (string, Option<string>))

  datatype Action =
    | WriteConfig(file: Option<File>)      // None removes the file
    | WriteSecurity(file: Option<File>)
    | Poll
    | Trigger                              // a file event or SIGHUP
    | LoadConfig(reload: nat)
    | LoadSecurity(reload: nat)
    | Record(reload: nat)
    | Deliver(reload: nat)

  predicate Newer(file: Option<File>, last: nat)
  {
    file.Some? && file.value.mtime > last
  }

  /** What `checkMtime` finds. */
  predicate Changed(s: State)
  {
    Newer(s.config, s.lastConfigMod) || (s.hasSecurity && Newer(s.security, s.lastSecurityMod))
  }

  function Load(file: Option<File>): Option<string>
  {
    if file.Some? && file.value.loads then Some(file.value.content) else None
  }

  /** A failed `Stat` leaves the recorded time alone. */
  function Stat(file: Option<File>, last: nat): nat
  {
    if file.Some? then file.value.mtime else last
  }

  /** Writes strictly raise modification times. */
  predicate Enabled(s: State, a: Action)
  {
    match a
    case WriteConfig(f) => f.Some? ==> f.value.mtime > s.clock
    case WriteSecurity(f) => f.Some? ==> f.value.mtime > s.clock
    case Poll => true
    case Trigger => true
    case LoadConfig(i) => i < |s.reloads| && s.reloads[i].Started?
    case LoadSecurity(i) => i < |s.reloads| && s.reloads[i].LoadedConfig?
    case Record(i) => i < |s.reloads| && s.reloads[i].LoadedBoth?
    case Deliver(i) => i < |s.reloads| && s.reloads[i].Recorded?
  }

  function Clock(file: Option<File>, clock: nat): nat
  {
    if file.Some? then file.value.mtime else clock
  }

  function SetStage(s: State, i: nat, st: Stage): State
    requires i < |s.reloads|
  {
    s.(reloads := s.reloads[i := st])
  }

  function Next(s: State, a: Action): State
    requires Enabled(s, a)
  {
    match a
    case WriteConfig(f) => s.(config := f, clock := Clock(f, s.clock))
    case WriteSecurity(f) => s.(security := f, clock := Clock(f, s.clock))
    case Poll => if Changed(s) then s.(reloads := s.reloads + [Started]) else s
    case Trigger => s.(reloads := s.reloads + [Started])
    case LoadConfig(i) =>
      var c := Load(s.config);
      SetStage(s, i, if c.Some? then LoadedConfig(c.value) else Finished)
    case LoadSecurity(i) =>
      if !s.hasSecurity then SetStage(s, i, LoadedBoth(s.reloads[i].config, None))
      else
        var sec := Load(s.security);
        SetStage(s, i, if sec.Some? then LoadedBoth(s.reloads[i].config, sec) else Finished)
    case Record(i) =>
      SetStage(s, i, Recorded(s.reloads[i].config, s.reloads[i].security)).(
        lastConfigMod := Stat(s.config, s.lastConfigMod),
        lastSecurityMod := if s.hasSecurity then Stat(s.security, s.lastSecurityMod) else s.lastSecurityMod)
    case Deliver(i) =>
      SetStage(s, i, Finished).(delivered := (s.reloads[i].config, s.reloads[i].security))
  }

  /** The server started from these files, and nothing was written before the watcher looked. */
  function Initial(config: File, security: Option<File>): State
  {
    State(Some(config), security,
          if security.Some? && security.value.mtime > config.mtime then security.value.mtime else config.mtime,
          security.Some?, config.mtime, Stat(security, 0), [],
          (config.content, if security.Some? then Some(security.value.content) else None))
  }

  predicate Idle(s: State)
  {
    forall i :: 0 <= i < |s.reloads| ==> s.reloads[i].Finished?
  }

  /** Reloads do not overlap, and no file is written between its loading and its `Stat`. */
  predicate Orderly(s: State, a: Action)
  {
    && (a.Trigger? || a.Poll? ==> Idle(s))
    && (a.WriteConfig? ==>
          forall i :: 0 <= i < |s.reloads| ==> !s.reloads[i].LoadedConfig? && !s.reloads[i].LoadedBoth?)
    && (a.WriteSecurity? ==> forall i :: 0 <= i < |s.reloads| ==> !s.reloads[i].LoadedBoth?)
  }

  predicate Runs(s: State, actions: seq<Action>)
    decreases |actions|
  {
    actions == [] || (Enabled(s, actions[0]) && Runs(Next(s, actions[0]), actions[1..]))
  }

  predicate OrderlyRuns(s: State, actions: seq<Action>)
    decreases |actions|
  {
    actions == [] ||
    (Enabled(s, actions[0]) && Orderly(s, actions[0]) && OrderlyRuns(Next(s, actions[0]), actions[1..]))
  }

  function Exec(s: State, actions: seq<Action>): State
    requires Runs(s, actions)
    decreases |actions|
  {
    if actions == [] then s else Exec(Next(s, actions[0]), actions[1..])
  }
}
