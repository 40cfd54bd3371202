/** The watcher object: what one call of `reload` or `checkMtime` does, given the files as it
    finds them at each of its reads. */
module Watcher {
  import opened Options
  import opened WatcherModel

  /** The two files when they are loaded and again when `Stat` looks at them. */
  datatype Reads = Reads(
    configLoaded: Option<File>, securityLoaded: Option<File>,
    configAtStat: Option<File>, securityAtStat: Option<File>)

  type Pair = (string, Option<string>)

  /** One callback invoked with what was loaded. */
  datatype Call = Call(callback: nat, pair: Pair)

  /** What a reload hands out, if both loads succeed. */
  function Loaded(r: Reads, hasSecurity: bool): Option<Pair>
  {
    var config, security := r.configLoaded, r.securityLoaded;
    if config.None? || !config.value.loads then None
    else if !hasSecurity then Some((config.value.content, None))
    else if security.None? || !security.value.loads then None
    else Some((config.value.content, Some(security.value.content)))
  }

  /** Every registered callback, in the order of registration. */
  function Calls(callbacks: seq<nat>, pair: Pair): (r: seq<Call>)
    ensures |r| == |callbacks|
    ensures forall i :: 0 <= i < |r| ==> r[i] == Call(callbacks[i], pair)
  {
    seq(|callbacks|, i requires 0 <= i < |callbacks| => Call(callbacks[i], pair))
  }

  class Watcher {
    var hasSecurity: bool
    var callbacks: seq<nat>
    var lastConfigMod: nat
    var lastSecurityMod: nat
    /** Every call made so far. */
    var calls: seq<Call>

    /** A file that cannot be examined leaves its time at zero. */
    constructor (config: Option<File>)
      ensures !hasSecurity && callbacks == [] && calls == []
      ensures lastConfigMod == (if config.Some? then config.value.mtime else 0) && lastSecurityMod == 0
    {
      hasSecurity, callbacks, calls := false, [], [];
      lastConfigMod, lastSecurityMod := 0, 0;
      if config.Some? {
        lastConfigMod := config.value.mtime;
      }
    }

    method SetSecurityPath(security: Option<File>)
      modifies this`hasSecurity, this`lastSecurityMod
      ensures hasSecurity
      ensures lastSecurityMod == if security.Some? then security.value.mtime else old(lastSecurityMod)
    {
      hasSecurity := true;
      if security.Some? {
        lastSecurityMod := security.value.mtime;
      }
    }

    method OnChange(callback: nat)
      modifies this`callbacks
      ensures callbacks == old(callbacks) + [callback]
    {
      callbacks := callbacks + [callback];
    }

    /** Nothing happens when a load fails; otherwise the times are recorded and every callback is
        called once, in order, with what was loaded. */
    method Reload(r: Reads)
      modifies this`lastConfigMod, this`lastSecurityMod, this`calls
      ensures Loaded(r, hasSecurity).None? ==>
        calls == old(calls) && lastConfigMod == old(lastConfigMod) && lastSecurityMod == old(lastSecurityMod)
      ensures Loaded(r, hasSecurity).Some? ==>
        && calls == old(calls) + Calls(callbacks, Loaded(r, hasSecurity).value)
        && lastConfigMod ==
             (if r.configAtStat.Some? then r.configAtStat.value.mtime else old(lastConfigMod))
        && lastSecurityMod ==
             if hasSecurity && r.securityAtStat.Some? then r.securityAtStat.value.mtime else old(lastSecurityMod)
    {
      var cfg := Load(r.configLoaded);
      if cfg.None? {
        return;
      }
      var security: Option<string> := None;
      if hasSecurity {
        security := Load(r.securityLoaded);
        if security.None? {
          return;
        }
      }
      if r.configAtStat.Some? {
        lastConfigMod := r.configAtStat.value.mtime;
      }
      if hasSecurity && r.securityAtStat.Some? {
        lastSecurityMod := r.securityAtStat.value.mtime;
      }
      var pair := (cfg.value, security);
      for i := 0 to |callbacks|
        invariant calls == old(calls) + Calls(callbacks, pair)[..i]
        invariant lastConfigMod == Stat(r.configAtStat, old(lastConfigMod))
        invariant lastSecurityMod ==
          if hasSecurity then Stat(r.securityAtStat, old(lastSecurityMod)) else old(lastSecurityMod)
      {
        calls := calls + [Call(callbacks[i], pair)];
        assert Calls(callbacks, pair)[..i + 1] == Calls(callbacks, pair)[..i] + [Call(callbacks[i], pair)];
      }
      assert Calls(callbacks, pair)[..|callbacks|] == Calls(callbacks, pair);
    }

    /** Reloads exactly when a file is newer than recorded. */
    method CheckMtime(config: Option<File>, security: Option<File>, r: Reads) returns (changed: bool)
      modifies this`lastConfigMod, this`lastSecurityMod, this`calls
      ensures changed <==>
        || (config.Some? && config.value.mtime > old(lastConfigMod))
        || (hasSecurity && security.Some? && security.value.mtime > old(lastSecurityMod))
      ensures !changed || Loaded(r, hasSecurity).None? ==>
        calls == old(calls) && lastConfigMod == old(lastConfigMod) && lastSecurityMod == old(lastSecurityMod)
      ensures changed && Loaded(r, hasSecurity).Some? ==>
        && calls == old(calls) + Calls(callbacks, Loaded(r, hasSecurity).value)
        && lastConfigMod ==
             (if r.configAtStat.Some? then r.configAtStat.value.mtime else old(lastConfigMod))
        && lastSecurityMod ==
             if hasSecurity && r.securityAtStat.Some? then r.securityAtStat.value.mtime else old(lastSecurityMod)
    {
      changed := false;
      if config.Some? && config.value.mtime > lastConfigMod {
        changed := true;
      }
      if hasSecurity && security.Some? && security.value.mtime > lastSecurityMod {
        changed := true;
      }
      if changed {
        Reload(r);
      }
    }
  }

  // ---- The object takes the steps of the model ----

  /** The same state after any number of writes to the files. */
  function Edited(s: State, config: Option<File>, security: Option<File>): State
  {
    s.(config := config, security := security)
  }

  /** Reload `i` of the model, with the files as in `r` at its reads, delivers what the object
      delivers and records what the object records; if a load fails it ends without either. */
  lemma ReloadTakesTheModelsSteps(s: State, i: nat, between: Option<File>, r: Reads)
    requires i < |s.reloads| && s.reloads[i].Started? && s.config == r.configLoaded
    ensures var loaded := Loaded(r, s.hasSecurity);
      var one := Edited(Next(s, LoadConfig(i)), between, r.securityLoaded);
      if one.reloads[i].Finished? then loaded.None?
      else
        var two := Edited(Next(one, LoadSecurity(i)), r.configAtStat, r.securityAtStat);
        if two.reloads[i].Finished? then
          loaded.None? && two.lastConfigMod == s.lastConfigMod && two.lastSecurityMod == s.lastSecurityMod
        else
          && loaded.Some?
          && var three := Next(two, Record(i));
             && three.lastConfigMod == Stat(r.configAtStat, s.lastConfigMod)
             && three.lastSecurityMod ==
                  (if s.hasSecurity then Stat(r.securityAtStat, s.lastSecurityMod) else s.lastSecurityMod)
             && Next(three, Deliver(i)).delivered == loaded.value
  {
    var one := Edited(Next(s, LoadConfig(i)), between, r.securityLoaded);
    if !one.reloads[i].Finished? {
      var two := Edited(Next(one, LoadSecurity(i)), r.configAtStat, r.securityAtStat);
      if !two.reloads[i].Finished? {
        assert two.reloads[i] == LoadedBoth(Loaded(r, s.hasSecurity).value.0, Loaded(r, s.hasSecurity).value.1);
      }
    }
  }
}
