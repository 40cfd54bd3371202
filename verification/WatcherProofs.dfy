/** What the watcher delivers is what the files hold, and where that stops being true. */
module WatcherProofs {
  import opened Options
  import opened WatcherModel

  /** A file whose time does not exceed the recorded one holds `content`. */
  predicate Agrees(file: Option<File>, last: nat, content: string)
  {
    file.Some? && file.value.mtime <= last ==> file.value.content == content
  }

  predicate BothAgree(s: State, config: string, security: Option<string>)
  {
    && Agrees(s.config, s.lastConfigMod, config)
    && security.Some? == s.hasSecurity
    && (s.hasSecurity ==> Agrees(s.security, s.lastSecurityMod, security.value))
  }

  predicate Holds(file: Option<File>, content: string)
  {
    file.Some? && file.value.content == content
  }

  /** The reload in flight, if any: only the last can be. */
  function Current(s: State): Stage
  {
    if s.reloads == [] then Finished else s.reloads[|s.reloads| - 1]
  }

  predicate StageOk(s: State)
  {
    match Current(s)
    case LoadedConfig(c) => Holds(s.config, c)
    case LoadedBoth(c, sec) =>
      Holds(s.config, c) && sec.Some? == s.hasSecurity && (s.hasSecurity ==> Holds(s.security, sec.value))
    case Recorded(c, sec) => BothAgree(s, c, sec)
    case _ => true
  }

  predicate TimesOk(s: State)
  {
    && (s.config.Some? ==> s.config.value.mtime <= s.clock)
    && (s.security.Some? ==> s.security.value.mtime <= s.clock)
    && s.lastConfigMod <= s.clock && s.lastSecurityMod <= s.clock
  }

  predicate Inv(s: State)
  {
    && (forall i :: 0 <= i < |s.reloads| - 1 ==> s.reloads[i].Finished?)
    && TimesOk(s)
    && StageOk(s)
    && (!Current(s).Recorded? ==> BothAgree(s, s.delivered.0, s.delivered.1))
    && s.delivered.1.Some? == s.hasSecurity
  }

  lemma NextKeepsInv(s: State, a: Action)
    requires Inv(s) && Enabled(s, a) && Orderly(s, a)
    ensures Inv(Next(s, a))
  {
    if s.reloads != [] {
      var n := |s.reloads| - 1;
      assert Current(s) == s.reloads[n];
    }
  }

  lemma {:induction false} OrderlyRunKeepsInv(s: State, actions: seq<Action>)
    requires Inv(s) && OrderlyRuns(s, actions)
    ensures Runs(s, actions) && Inv(Exec(s, actions))
    decreases |actions|
  {
    if actions != [] {
      NextKeepsInv(s, actions[0]);
      OrderlyRunKeepsInv(Next(s, actions[0]), actions[1..]);
    }
  }

  /** The last delivered pair is what the files hold. */
  predicate Synced(s: State)
  {
    && Holds(s.config, s.delivered.0)
    && s.delivered.1.Some? == s.hasSecurity
    && (s.hasSecurity ==> Holds(s.security, s.delivered.1.value))
  }

  predicate Present(s: State)
  {
    s.config.Some? && (s.hasSecurity ==> s.security.Some?)
  }

  /** In every orderly run: between reloads, if both files are there and neither is newer than
      recorded, the last delivered pair equals the files. */
  lemma UnchangedMeansSynced(config: File, security: Option<File>, actions: seq<Action>)
    requires OrderlyRuns(Initial(config, security), actions)
    ensures Runs(Initial(config, security), actions)
    ensures var s := Exec(Initial(config, security), actions);
      Idle(s) && Present(s) && !Changed(s) ==> Synced(s)
  {
    OrderlyRunKeepsInv(Initial(config, security), actions);
    var s := Exec(Initial(config, security), actions);
    if Idle(s) && s.reloads != [] { assert Current(s).Finished?; }
  }

  // ---- One poll, run to its end ----

  /** The steps of a reload that has just been started as number `i`. */
  function ReloadSteps(i: nat): seq<Action>
  {
    [LoadConfig(i), LoadSecurity(i), Record(i), Deliver(i)]
  }

  predicate Loadable(s: State)
  {
    s.config.Some? && s.config.value.loads && (s.hasSecurity ==> s.security.Some? && s.security.value.loads)
  }

  lemma ReloadRuns(s: State, i: nat)
    requires i < |s.reloads| && s.reloads[i].Started? && Loadable(s)
    ensures Runs(s, ReloadSteps(i))
    ensures var sec := if s.hasSecurity then Some(s.security.value.content) else None;
      Exec(s, ReloadSteps(i)) == s.(
        lastConfigMod := s.config.value.mtime,
        lastSecurityMod := if s.hasSecurity then s.security.value.mtime else s.lastSecurityMod,
        reloads := s.reloads[i := Finished],
        delivered := (s.config.value.content, sec))
  {
    var sec := if s.hasSecurity then Some(s.security.value.content) else None;
    var c := s.config.value.content;
    var s1 := Next(s, LoadConfig(i));
    var s2 := Next(s1, LoadSecurity(i));
    var s3 := Next(s2, Record(i));
    var s4 := Next(s3, Deliver(i));
    assert s1.reloads[i] == LoadedConfig(c) && s2.reloads[i] == LoadedBoth(c, sec) && s3.reloads[i] == Recorded(c, sec);
    assert s4.reloads == s.reloads[i := Finished];
    FourSteps(s, LoadConfig(i), LoadSecurity(i), Record(i), Deliver(i));
  }

  lemma FourSteps(s: State, a: Action, b: Action, c: Action, d: Action)
    requires Enabled(s, a) && Enabled(Next(s, a), b) && Enabled(Next(Next(s, a), b), c)
    requires Enabled(Next(Next(Next(s, a), b), c), d)
    ensures Runs(s, [a, b, c, d])
    ensures Exec(s, [a, b, c, d]) == Next(Next(Next(Next(s, a), b), c), d)
  {
    var s1, s2 := Next(s, a), Next(Next(s, a), b);
    OneStep(Next(s2, c), d, []);
    OneStep(s2, c, [d]);
    OneStep(s1, b, [c, d]);
    OneStep(s, a, [b, c, d]);
    assert [c] + [d] == [c, d] && [b] + [c, d] == [b, c, d] && [a] + [b, c, d] == [a, b, c, d] && [d] + [] == [d];
  }

  lemma OneStep(s: State, a: Action, rest: seq<Action>)
    requires Enabled(s, a) && Runs(Next(s, a), rest)
    ensures Runs(s, [a] + rest) && Exec(s, [a] + rest) == Exec(Next(s, a), rest)
  {
    assert ([a] + rest)[1..] == rest;
  }

  /** A poll whose loads succeed brings the server up to date: afterwards nothing is newer than
      recorded, and the delivered pair equals the files. */
  lemma PollSyncs(s: State)
    requires Inv(s) && Idle(s) && Loadable(s)
    ensures if Changed(s) then
        var t := Next(s, Poll);
        Runs(t, ReloadSteps(|s.reloads|)) &&
        var u := Exec(t, ReloadSteps(|s.reloads|));
        Synced(u) && !Changed(u) && Idle(u) && u.config == s.config && u.security == s.security
      else Next(s, Poll) == s && Synced(s)
  {
    if Changed(s) {
      ReloadRuns(Next(s, Poll), |s.reloads|);
    } else if s.reloads != [] {
      assert Current(s).Finished?;
    }
  }

  /** A reload that fails on either file delivers nothing and records nothing, so a change that
      was pending is still pending for the next poll. */
  lemma FailedLoadIsRetried(s: State, i: nat)
    requires i < |s.reloads| && s.reloads[i].Started? && !Loadable(s)
    ensures var t := Next(s, LoadConfig(i));
      var u := if t.reloads[i].Finished? then t else Next(t, LoadSecurity(i));
      u == s.(reloads := s.reloads[i := Finished]) && u.delivered == s.delivered && Changed(u) == Changed(s)
  {
    var t := Next(s, LoadConfig(i));
    if !t.reloads[i].Finished? {
      var u := Next(t, LoadSecurity(i));
      assert u.reloads == s.reloads[i := Finished];
    }
  }

  /** So does a reload that an event or a signal starts, whether or not anything looks newer. */
  lemma TriggerSyncs(s: State)
    requires Inv(s) && Idle(s) && Loadable(s)
    ensures var t := Next(s, Trigger);
      && Runs(t, ReloadSteps(|s.reloads|))
      && var u := Exec(t, ReloadSteps(|s.reloads|));
         Synced(u) && !Changed(u) && Idle(u) && u.config == s.config && u.security == s.security
  {
    ReloadRuns(Next(s, Trigger), |s.reloads|);
  }

  // ---- A write between loading and Stat ----

  /** The reload in flight has loaded both files. */
  predicate BothLoaded(s: State, config: string, security: Option<string>)
  {
    s.reloads != [] && Current(s) == LoadedBoth(config, security)
  }

  /** The end of the reload in flight. */
  function FinishReload(s: State): State
    requires s.reloads != [] && Current(s).LoadedBoth?
  {
    var i := |s.reloads| - 1;
    Next(Next(s, Record(i)), Deliver(i))
  }

  lemma FinishedReload(s: State)
    requires s.reloads != [] && Current(s).LoadedBoth?
    ensures FinishReload(s) == s.(
      lastConfigMod := Stat(s.config, s.lastConfigMod),
      lastSecurityMod := if s.hasSecurity then Stat(s.security, s.lastSecurityMod) else s.lastSecurityMod,
      reloads := s.reloads[|s.reloads| - 1 := Finished],
      delivered := (Current(s).config, Current(s).security))
  {
    var i := |s.reloads| - 1;
    assert Next(s, Record(i)).reloads[i] == Recorded(Current(s).config, Current(s).security);
    assert Next(Next(s, Record(i)), Deliver(i)).reloads == s.reloads[i := Finished];
  }

  /** Whatever happened before: if the files are written, the one, the other or both, after both were
      loaded, then the reload ends with nothing newer than recorded, and the delivered pair equals
      the files exactly when the new contents equal those loaded. */
  lemma WriteBeforeStatIsLost(s: State, config: File, security: Option<File>, c: string, sec: Option<string>)
    requires Inv(s) && BothLoaded(s, c, sec)
    requires s.hasSecurity ==> security.Some?
    ensures var u := FinishReload(s.(config := Some(config), security := security));
      && !Changed(u) && Idle(u) && Next(u, Poll) == u
      && (Synced(u) <==> config.content == c && (s.hasSecurity ==> security.value.content == sec.value))
  {
    var w := s.(config := Some(config), security := security);
    assert Current(w) == LoadedBoth(c, sec);
    FinishedReload(w);
  }

  /** The same for a write to the configuration between the two loads. */
  lemma WriteBetweenLoadsIsLost(s: State, config: File, c: string)
    requires Inv(s) && s.reloads != [] && Current(s) == LoadedConfig(c)
    requires s.hasSecurity ==> Load(s.security).Some?
    ensures var i := |s.reloads| - 1;
      var t := Next(s.(config := Some(config)), LoadSecurity(i));
      && BothLoaded(t, c, if s.hasSecurity then Load(s.security) else None)
      && var u := FinishReload(t);
         !Changed(u) && Idle(u) && (Synced(u) <==> config.content == c)
  {
    var i := |s.reloads| - 1;
    var w := s.(config := Some(config));
    assert w.reloads[i] == LoadedConfig(c);
    var t := Next(w, LoadSecurity(i));
    assert Current(t) == LoadedBoth(c, if s.hasSecurity then Load(s.security) else None);
    FinishedReload(t);
  }

  // ---- Overlapping reloads ----

  /** A second reload overtakes one that has recorded and not yet delivered, after a write to either
      file.  The older one delivers last, and whatever happened before, nothing is newer than recorded
      then, and the delivered pair equals the files exactly when they hold what it had loaded. */
  lemma OverlappingReloadsDeliverOldContent(
      s: State, config: File, security: Option<File>, c: string, sec: Option<string>)
    requires Inv(s) && s.reloads != [] && Current(s) == Recorded(c, sec)
    requires config.loads && (s.hasSecurity ==> Load(security).Some?)
    ensures var i := |s.reloads| - 1;
      var t := Next(s.(config := Some(config), security := security), Trigger);
      && Runs(t, ReloadSteps(i + 1))
      && var second := Exec(t, ReloadSteps(i + 1));
         && Synced(second) && Enabled(second, Deliver(i))
         && var end := Next(second, Deliver(i));
            && Idle(end) && !Changed(end) && Next(end, Poll) == end
            && (Synced(end) <==> config.content == c && (s.hasSecurity ==> security.value.content == sec.value))
  {
    var i := |s.reloads| - 1;
    var t := Next(s.(config := Some(config), security := security), Trigger);
    assert t.reloads[i] == Recorded(c, sec) && t.reloads[i + 1] == Started;
    ReloadRuns(t, i + 1);
    var second := Exec(t, ReloadSteps(i + 1));
    assert second.reloads == t.reloads[i + 1 := Finished];
    var end := Next(second, Deliver(i));
    assert end.reloads == second.reloads[i := Finished];
  }
}
