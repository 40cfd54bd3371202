/** Any number of reloads, overlapping as they may, and writes at any time: when the server holds what
    the files hold. */
module WatcherTracking {
  import opened Options
  import opened WatcherModel
  import opened WatcherProofs

  /** Which of the two files have not been written since a reload loaded them. */
  datatype Fresh = Fresh(config: bool, security: bool)

  /** A state with that knowledge of every reload, and of the one delivered last. */
  datatype Tracked = Tracked(state: State, reloads: seq<Fresh>, delivered: Fresh)

  const NOTHING: Fresh := Fresh(false, false)

  function Overwrite(reloads: seq<Fresh>, config: bool): (r: seq<Fresh>)
    ensures |r| == |reloads|
    ensures forall i :: 0 <= i < |r| ==> r[i] == Outdate(reloads[i], config)
  {
    seq(|reloads|, i requires 0 <= i < |reloads| => Outdate(reloads[i], config))
  }

  /** The configuration is written, or the other file is. */
  function Outdate(f: Fresh, config: bool): Fresh
  {
    if config then f.(config := false) else f.(security := false)
  }

  function Track(t: Tracked, a: Action): Tracked
    requires Enabled(t.state, a) && |t.reloads| == |t.state.reloads|
  {
    var s := Next(t.state, a);
    match a
    case WriteConfig(_) => Tracked(s, Overwrite(t.reloads, true), Outdate(t.delivered, true))
    case WriteSecurity(_) => Tracked(s, Overwrite(t.reloads, false), Outdate(t.delivered, false))
    case Poll => t.(state := s, reloads := if Changed(t.state) then t.reloads + [NOTHING] else t.reloads)
    case Trigger => t.(state := s, reloads := t.reloads + [NOTHING])
    case LoadConfig(i) => t.(state := s, reloads := t.reloads[i := t.reloads[i].(config := true)])
    case LoadSecurity(i) => t.(state := s, reloads := t.reloads[i := t.reloads[i].(security := true)])
    case Record(_) => t.(state := s)
    case Deliver(i) => t.(state := s, delivered := t.reloads[i])
  }

  // ---- What the marks say about the contents ----

  /** A fresh mark means that the file holds the content; with `exact`, and only it does. */
  predicate MarkOk(exact: bool, mark: bool, file: Option<File>, content: string)
  {
    (mark ==> Holds(file, content)) && (exact && Holds(file, content) ==> mark)
  }

  predicate PairOk(exact: bool, s: State, f: Fresh, config: string, security: Option<string>)
  {
    && MarkOk(exact, f.config, s.config, config)
    && security.Some? == s.hasSecurity
    && (s.hasSecurity ==> MarkOk(exact, f.security, s.security, security.value))
  }

  predicate ReloadOk(exact: bool, s: State, stage: Stage, f: Fresh)
  {
    match stage
    case LoadedConfig(c) => MarkOk(exact, f.config, s.config, c)
    case LoadedBoth(c, sec) => PairOk(exact, s, f, c, sec)
    case Recorded(c, sec) => PairOk(exact, s, f, c, sec)
    case _ => true
  }

  predicate TrackInv(exact: bool, t: Tracked)
  {
    && |t.reloads| == |t.state.reloads|
    && (forall i :: 0 <= i < |t.reloads| ==> ReloadOk(exact, t.state, t.state.reloads[i], t.reloads[i]))
    && PairOk(exact, t.state, t.delivered, t.state.delivered.0, t.state.delivered.1)
  }

  // ---- Writes that bring something new ----

  /** The reload has not loaded that content of the configuration, or of the other file. */
  predicate NewToReload(stage: Stage, config: bool, content: string)
  {
    match stage
    case LoadedConfig(c) => config ==> c != content
    case LoadedBoth(c, sec) => if config then c != content else sec != Some(content)
    case Recorded(c, sec) => if config then c != content else sec != Some(content)
    case _ => true
  }

  /** A write brings content that no reload under way has loaded and that was not delivered last. */
  predicate Novel(s: State, a: Action)
  {
    a.WriteConfig? || a.WriteSecurity? ==>
      a.file.Some? ==>
        var content := a.file.value.content;
        && (forall i :: 0 <= i < |s.reloads| ==> NewToReload(s.reloads[i], a.WriteConfig?, content))
        && (if a.WriteConfig? then s.delivered.0 != content else s.delivered.1 != Some(content))
  }

  lemma WriteKeepsTrack(exact: bool, t: Tracked, a: Action)
    requires TrackInv(exact, t) && Enabled(t.state, a) && (exact ==> Novel(t.state, a))
    requires a.WriteConfig? || a.WriteSecurity?
    ensures TrackInv(exact, Track(t, a))
  {
    var r := Track(t, a);
    forall i | 0 <= i < |r.reloads| ensures ReloadOk(exact, r.state, r.state.reloads[i], r.reloads[i]) {
      assert ReloadOk(exact, t.state, t.state.reloads[i], t.reloads[i]);
      assert exact && a.file.Some? ==> NewToReload(t.state.reloads[i], a.WriteConfig?, a.file.value.content);
    }
  }

  predicate OfReload(a: Action) { a.LoadConfig? || a.LoadSecurity? || a.Record? || a.Deliver? }

  lemma ReloadStepEffects(t: Tracked, a: Action)
    requires Enabled(t.state, a) && |t.reloads| == |t.state.reloads| && OfReload(a)
    ensures var r := Track(t, a);
      && r.state.config == t.state.config && r.state.security == t.state.security
      && r.state.hasSecurity == t.state.hasSecurity
      && |r.reloads| == |r.state.reloads| == |t.reloads|
      && (forall i :: 0 <= i < |t.reloads| && i != a.reload ==>
            r.reloads[i] == t.reloads[i] && r.state.reloads[i] == t.state.reloads[i])
      && (!a.Deliver? ==> r.delivered == t.delivered && r.state.delivered == t.state.delivered)
  {
  }

  lemma OwnReloadOk(exact: bool, t: Tracked, a: Action)
    requires Enabled(t.state, a) && |t.reloads| == |t.state.reloads| && OfReload(a)
    requires ReloadOk(exact, t.state, t.state.reloads[a.reload], t.reloads[a.reload])
    ensures var r := Track(t, a);
      && |r.reloads| == |r.state.reloads| == |t.reloads|
      && ReloadOk(exact, r.state, r.state.reloads[a.reload], r.reloads[a.reload])
      && (a.Deliver? ==> PairOk(exact, r.state, r.delivered, r.state.delivered.0, r.state.delivered.1))
  {
  }

  lemma ReloadStepKeepsTrack(exact: bool, t: Tracked, a: Action)
    requires TrackInv(exact, t) && Enabled(t.state, a)
    requires OfReload(a)
    ensures TrackInv(exact, Track(t, a))
  {
    var r := Track(t, a);
    assert ReloadOk(exact, t.state, t.state.reloads[a.reload], t.reloads[a.reload]);
    ReloadStepEffects(t, a);
    OwnReloadOk(exact, t, a);
    forall i | 0 <= i < |r.reloads| ensures ReloadOk(exact, r.state, r.state.reloads[i], r.reloads[i]) {
      assert ReloadOk(exact, t.state, t.state.reloads[i], t.reloads[i]);
    }
  }

  lemma StartKeepsTrack(exact: bool, t: Tracked, a: Action)
    requires TrackInv(exact, t) && Enabled(t.state, a) && (a.Poll? || a.Trigger?)
    ensures TrackInv(exact, Track(t, a))
  {
    var r := Track(t, a);
    forall i | 0 <= i < |r.reloads| ensures ReloadOk(exact, r.state, r.state.reloads[i], r.reloads[i]) {
      if i < |t.reloads| { assert ReloadOk(exact, t.state, t.state.reloads[i], t.reloads[i]); }
    }
  }

  lemma StepKeepsTrack(exact: bool, t: Tracked, a: Action)
    requires TrackInv(exact, t) && Enabled(t.state, a) && (exact ==> Novel(t.state, a))
    ensures TrackInv(exact, Track(t, a)) && Track(t, a).state == Next(t.state, a)
  {
    if a.WriteConfig? || a.WriteSecurity? {
      WriteKeepsTrack(exact, t, a);
    } else if a.Poll? || a.Trigger? {
      StartKeepsTrack(exact, t, a);
    } else {
      ReloadStepKeepsTrack(exact, t, a);
    }
  }

  // ---- Whole runs ----

  predicate NovelThroughout(s: State, actions: seq<Action>)
    requires Runs(s, actions)
    decreases |actions|
  {
    actions == [] || (Novel(s, actions[0]) && NovelThroughout(Next(s, actions[0]), actions[1..]))
  }

  /** The marks at the end of a run. */
  function TrackAll(t: Tracked, actions: seq<Action>): Tracked
    requires Runs(t.state, actions) && |t.reloads| == |t.state.reloads|
    decreases |actions|
  {
    if actions == [] then t else TrackAll(Track(t, actions[0]), actions[1..])
  }

  lemma {:induction false} RunKeepsTrack(exact: bool, t: Tracked, actions: seq<Action>)
    requires TrackInv(exact, t) && Runs(t.state, actions) && (exact ==> NovelThroughout(t.state, actions))
    ensures TrackInv(exact, TrackAll(t, actions)) && TrackAll(t, actions).state == Exec(t.state, actions)
    decreases |actions|
  {
    if actions != [] {
      StepKeepsTrack(exact, t, actions[0]);
      RunKeepsTrack(exact, Track(t, actions[0]), actions[1..]);
    }
  }

  function TrackedInitial(config: File, security: Option<File>): Tracked
  {
    Tracked(Initial(config, security), [], Fresh(true, true))
  }

  /** Neither file has been written since the reload delivered last had loaded it. */
  predicate DeliveredFresh(t: Tracked)
  {
    t.delivered.config && (t.state.hasSecurity ==> t.delivered.security)
  }

  /** In every run, with overlapping reloads and with writes and removals at any time: if neither file
      was written since the reload that was delivered last had loaded it, the delivered pair equals
      the files.  If every write brings content that no reload under way has loaded and that was not
      delivered last, it equals them only then. */
  lemma SyncedExactlyWhen(config: File, security: Option<File>, actions: seq<Action>)
    requires Runs(Initial(config, security), actions)
    ensures var t := TrackAll(TrackedInitial(config, security), actions);
      && t.state == Exec(Initial(config, security), actions)
      && (DeliveredFresh(t) ==> Synced(t.state))
      && (NovelThroughout(Initial(config, security), actions) ==> (Synced(t.state) <==> DeliveredFresh(t)))
  {
    RunKeepsTrack(false, TrackedInitial(config, security), actions);
    if NovelThroughout(Initial(config, security), actions) {
      RunKeepsTrack(true, TrackedInitial(config, security), actions);
    }
  }
}
