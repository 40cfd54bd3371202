/** One `UpdateConfig` at a time: nothing leaks, and repeating an update converges. */
module PoolConvergence {
  import opened PoolModel
  import opened PoolSafety
  import opened PoolDrain
  import opened PoolCover

  predicate AllFinished(s: State)
  {
    forall u :: 0 <= u < |s.updates| ==> Finished(s.updates[u])
  }

  /** Updates do not overlap, and the pool is not shut down. */
  predicate Serial(s: State, a: Action)
  {
    !a.CloseAll? && (a.Begin? ==> AllFinished(s))
  }

  predicate SerialRuns(s: State, actions: seq<Action>)
    decreases |actions|
  {
    actions == [] ||
    (Enabled(s, actions[0]) && Serial(s, actions[0]) && SerialRuns(Next(s, actions[0]), actions[1..]))
  }

  lemma {:induction false} SerialRunsRun(s: State, actions: seq<Action>)
    requires SerialRuns(s, actions)
    ensures Runs(s, actions)
    decreases |actions|
  {
    if actions != [] { SerialRunsRun(Next(s, actions[0]), actions[1..]); }
  }

  /** Nothing is owed by then, so a call that begins alone is careful. */
  lemma {:induction false} SerialRunsAreCareful(s: State, actions: seq<Action>)
    requires SerialRuns(s, actions)
    ensures CarefulRuns(s, actions) && NoShutdown(actions)
    decreases |actions|
  {
    if actions != [] {
      SerialIsCareful(s, actions[0]);
      SerialRunsAreCareful(Next(s, actions[0]), actions[1..]);
    }
  }

  lemma SerialIsCareful(s: State, a: Action)
    requires Serial(s, a)
    ensures Careful(s, a)
  {
    if a.Begin? {
      forall u | 0 <= u < |s.updates| ensures Owed(s.updates[u]) == map[] {
        assert Finished(s.updates[u]);
      }
    }
  }

  /** While updates do not overlap and the pool is not shut down, every database ever opened is in
      the map or closed. */
  lemma NothingLeaks(cfg: map<Name, Config>, order: seq<Name>, actions: seq<Action>)
    requires InitialOrder(cfg, order) && SerialRuns(Initial(cfg, order), actions)
    ensures Possible(cfg, order, actions) && NoLeak(Reached(cfg, order, actions))
  {
    SerialRunsAreCareful(Initial(cfg, order), actions);
    CarefulRunsLeakNothing(cfg, order, actions);
  }

  /** And a `Get` that finds its entry not closing sees the current identity. */
  lemma SerialGetSeesCurrentIdentity(cfg: map<Name, Config>, order: seq<Name>, actions: seq<Action>, k: nat)
    requires InitialOrder(cfg, order) && SerialRuns(Initial(cfg, order), actions)
    ensures Possible(cfg, order, actions)
    ensures var s := Reached(cfg, order, actions);
      IsGet(s, k, Looked) && !s.entries[s.gets[k].entry].closing ==>
        var g := s.gets[k];
        && g.name in s.clusters && s.clusters[g.name] == g.entry
        && g.name in s.configs
        && var was, now := s.entries[g.entry].openedWith, s.configs[g.name];
           was.host == now.host && was.port == now.port &&
           was.username == now.username && was.password == now.password
  {
    SerialRunsAreCareful(Initial(cfg, order), actions);
    CarefulGetSeesCurrentIdentity(cfg, order, actions, k);
  }

  // ---- The invariant of serial runs ----

  function Last(s: State): Update
  {
    if s.updates == [] then Update(map[], Choosing, 0) else s.updates[|s.updates| - 1]
  }

  /** The update in progress owes exactly the clusters that are closing. */
  predicate OwedIsClosing(s: State)
  {
    && (forall n :: n in Owed(Last(s)) ==> n in s.clusters && s.clusters[n] == Owed(Last(s))[n])
    && (forall n :: n in s.clusters && s.clusters[n] < |s.entries| && s.entries[s.clusters[n]].closing ==>
          n in Owed(Last(s)))
  }

  predicate SerialInv(s: State)
  {
    && CareInv(s)
    && Covered(s)
    && EarlierFinished(s)
    && OwedIsClosing(s)
  }

  lemma BeginOwes(s: State, cfg: map<Name, Config>, added: seq<Name>)
    requires SerialInv(s) && Openable(s, cfg, added) && AllFinished(s)
    ensures OwedIsClosing(Phase1(s, cfg, added))
  {
    var t := Phase1(s, cfg, added);
    var m := ToClose(s, cfg);
    assert Last(t) == Update(m, Choosing, BUDGET);
    BindIs(s.clusters, added, |s.entries|);
    forall n | n in t.clusters && t.clusters[n] < |t.entries| && t.entries[t.clusters[n]].closing ensures n in m {
      Phase1Binds(s, cfg, added, n);
      if n in s.clusters {
        assert Owed(Last(s)) == map[];
        assert s.clusters[n] in m.Values;
        var k :| k in m && m[k] == s.clusters[n];
        assert k == n;
      }
    }
  }

  lemma BeginKeepsSerial(s: State, cfg: map<Name, Config>, added: seq<Name>)
    requires SerialInv(s) && Openable(s, cfg, added) && AllFinished(s)
    ensures SerialInv(Phase1(s, cfg, added))
  {
    SerialIsCareful(s, Begin(cfg, added));
    NextKeepsCare(s, Begin(cfg, added));
    BeginCovers(s, cfg, added);
    BeginOwes(s, cfg, added);
  }

  /** Only the last update can be unfinished. */
  predicate EarlierFinished(s: State)
  {
    forall u :: 0 <= u < |s.updates| - 1 ==> Finished(s.updates[u])
  }

  lemma OnlyLastMoves(s: State, a: Action)
    requires EarlierFinished(s) && Enabled(s, a) && OfUpdate(a)
    ensures a.upd == |s.updates| - 1 || a.Pass?
  {
    if a.upd < |s.updates| - 1 { assert Finished(s.updates[a.upd]); }
  }

  lemma ChooseOwes(u: Update, name: Name)
    requires u.stage.Choosing? && name in u.todo
    ensures Owed(Update(u.todo - {name}, Waiting(name, u.todo[name]), u.ticks)) == Owed(u)
  {
  }

  lemma DeleteKeepsOwed(s: State, u: nat)
    requires SerialInv(s) && Enabled(s, Delete(u))
    ensures OwedIsClosing(Next(s, Delete(u)))
    ensures EarlierFinished(Next(s, Delete(u)))
  {
    OnlyLastMoves(s, Delete(u));
    assert OweOk(s, Last(s)) && Last(s).stage.name in Owed(Last(s));
  }

  /** Nothing that the serial invariant adds to the careful one has changed. */
  predicate Frames(s: State, t: State)
  {
    && t.clusters == s.clusters && t.configs == s.configs && |t.entries| == |s.entries|
    && (forall e :: 0 <= e < |s.entries| ==> t.entries[e].closing == s.entries[e].closing)
    && EarlierFinished(t)
    && Owed(Last(t)) == Owed(Last(s))
  }

  lemma GetStepEffects(s: State, a: Action)
    requires Enabled(s, a) && !OfUpdate(a) && !a.Begin? && !a.CloseAll?
    ensures var t := Next(s, a);
      && t.clusters == s.clusters && t.configs == s.configs && t.updates == s.updates && |t.entries| == |s.entries|
      && forall e :: 0 <= e < |s.entries| ==> t.entries[e].closing == s.entries[e].closing
  {
  }

  lemma UpdateStepEffects(s: State, a: Action)
    requires Enabled(s, a) && OfUpdate(a) && !a.Delete?
    ensures var t := Next(s, a);
      && t.clusters == s.clusters && t.configs == s.configs && |t.entries| == |s.entries|
      && (forall e :: 0 <= e < |s.entries| ==> t.entries[e].closing == s.entries[e].closing)
      && |t.updates| == |s.updates|
      && forall u :: 0 <= u < |s.updates| && u != a.upd ==> t.updates[u] == s.updates[u]
  {
  }

  lemma OwedIsKept(s: State, a: Action)
    requires Enabled(s, a) && OfUpdate(a) && !a.Delete?
    ensures |Next(s, a).updates| == |s.updates| && Owed(Next(s, a).updates[a.upd]) == Owed(s.updates[a.upd])
    ensures Finished(s.updates[a.upd]) && a.Pass? ==> Finished(Next(s, a).updates[a.upd])
  {
    if a.Choose? { ChooseOwes(s.updates[a.upd], a.cluster); }
  }

  /** Every step but phase 1, a delete and a shutdown. */
  lemma StepFrames(s: State, a: Action)
    requires EarlierFinished(s) && Enabled(s, a) && !a.Begin? && !a.CloseAll? && !a.Delete?
    ensures Frames(s, Next(s, a))
  {
    if OfUpdate(a) {
      OnlyLastMoves(s, a);
      UpdateStepEffects(s, a);
      OwedIsKept(s, a);
    } else {
      GetStepEffects(s, a);
    }
  }

  lemma NextKeepsSerial(s: State, a: Action)
    requires SerialInv(s) && Enabled(s, a) && Serial(s, a)
    ensures SerialInv(Next(s, a))
  {
    if a.Begin? {
      BeginKeepsSerial(s, a.cfg, a.added);
    } else {
      NextKeepsCare(s, a);
      CareUnmapsClosing(s, a);
      StepCovers(s, a);
      if a.Delete? { DeleteKeepsOwed(s, a.upd); } else { StepFrames(s, a); }
    }
  }

  lemma {:induction false} RunKeepsSerial(s: State, actions: seq<Action>)
    requires SerialInv(s) && SerialRuns(s, actions)
    ensures Runs(s, actions) && SerialInv(Exec(s, actions))
    decreases |actions|
  {
    SerialRunsRun(s, actions);
    if actions != [] {
      NextKeepsSerial(s, actions[0]);
      RunKeepsSerial(Next(s, actions[0]), actions[1..]);
    }
  }

  lemma InitialSerial(cfg: map<Name, Config>, order: seq<Name>)
    requires InitialOrder(cfg, order)
    ensures SerialInv(Initial(cfg, order)) && AllFinished(Initial(cfg, order))
  {
    InitialCare(cfg, order);
    InitialCovered(cfg, order);
    assert forall e :: 0 <= e < |Initial(cfg, order).entries| ==> !Initial(cfg, order).entries[e].closing;
  }

  // ---- Convergence ----

  predicate AllConnect(s: State, cfg: map<Name, Config>, added: seq<Name>)
  {
    Openable(s, cfg, added) && forall n :: n in cfg && n !in s.clusters ==> n in added
  }

  /** The clusters whose host, port, user or password the update changes. */
  function Changed(s: State, cfg: map<Name, Config>): set<Name>
  {
    set n | n in s.clusters && n in cfg &&
            var was, now := OldConfig(s.configs, n), cfg[n];
            was.host != now.host || was.port != now.port || was.username != now.username || was.password != now.password
  }

  /** What phase 1 leaves once the marked entries are gone. */
  function Settled(s: State, cfg: map<Name, Config>, added: seq<Name>): map<Name, nat>
    requires Openable(s, cfg, added)
  {
    Phase1(s, cfg, added).clusters - ToClose(s, cfg).Keys
  }

  lemma SettledKeys(s: State, cfg: map<Name, Config>, added: seq<Name>)
    requires AllConnect(s, cfg, added)
    ensures Settled(s, cfg, added).Keys == cfg.Keys - Changed(s, cfg)
    ensures forall n :: n in Settled(s, cfg, added) && n in s.clusters ==> Settled(s, cfg, added)[n] == s.clusters[n]
  {
    BindIs(s.clusters, added, |s.entries|);
  }

  /** `t` differs from the settled map by exactly what the update still owes. */
  predicate Settling(t: State, cfg: map<Name, Config>, base: map<Name, nat>)
  {
    && t.configs == cfg
    && t.clusters.Keys == base.Keys + Owed(Last(t)).Keys
    && (forall n :: n in base ==> n !in Owed(Last(t)) && t.clusters[n] == base[n])
  }

  lemma FramesKeepSettling(t: State, r: State, cfg: map<Name, Config>, base: map<Name, nat>)
    requires Settling(t, cfg, base) && Frames(t, r)
    ensures Settling(r, cfg, base)
  {
  }

  lemma DeleteSettles(t: State, cfg: map<Name, Config>, base: map<Name, nat>)
    requires Settling(t, cfg, base) && t.updates != [] && OweOk(t, Last(t)) && Last(t).stage.Closed?
    ensures Settling(Next(t, Delete(|t.updates| - 1)), cfg, base)
  {
    var r := Next(t, Delete(|t.updates| - 1));
    var name := Last(t).stage.name;
    assert Owed(Last(r)).Keys == Owed(Last(t)).Keys - {name};
    assert name in Owed(Last(t));
    assert r.clusters.Keys == t.clusters.Keys - {name};
  }

  lemma NextSettles(t: State, a: Action, cfg: map<Name, Config>, base: map<Name, nat>)
    requires SerialInv(t) && Settling(t, cfg, base) && Enabled(t, a) && !a.Begin? && !a.CloseAll?
    ensures Settling(Next(t, a), cfg, base)
  {
    if a.Delete? {
      OnlyLastMoves(t, a);
      DeleteSettles(t, cfg, base);
    } else {
      StepFrames(t, a);
      FramesKeepSettling(t, Next(t, a), cfg, base);
    }
  }

  lemma {:induction false} RunSettles(t: State, actions: seq<Action>, cfg: map<Name, Config>, base: map<Name, nat>)
    requires SerialInv(t) && Settling(t, cfg, base) && Runs(t, actions) && NoBegin(actions)
    ensures SerialInv(Exec(t, actions)) && Settling(Exec(t, actions), cfg, base)
    decreases |actions|
  {
    if actions != [] {
      assert !actions[0].Begin? && !actions[0].CloseAll?;
      NextSettles(t, actions[0], cfg, base);
      NextKeepsSerial(t, actions[0]);
      RunSettles(Next(t, actions[0]), actions[1..], cfg, base);
    }
  }

  lemma Phase1Settling(s: State, cfg: map<Name, Config>, added: seq<Name>)
    requires Openable(s, cfg, added)
    ensures Settling(Phase1(s, cfg, added), cfg, Settled(s, cfg, added))
  {
    var p := Phase1(s, cfg, added);
    BindIs(s.clusters, added, |s.entries|);
    assert Owed(Last(p)) == ToClose(s, cfg);
    assert p.clusters.Keys == Settled(s, cfg, added).Keys + ToClose(s, cfg).Keys;
  }

  /** One update, whose connects succeed, with any gets, releases and drain steps in between,
      leaves exactly the configured clusters except those whose identity it changed, which it
      drains and removes; the clusters it keeps keep their databases. */
  lemma UpdateSettles(s: State, cfg: map<Name, Config>, added: seq<Name>, actions: seq<Action>)
    requires SerialInv(s) && AllFinished(s) && AllConnect(s, cfg, added)
    requires Runs(Phase1(s, cfg, added), actions) && NoBegin(actions)
    requires AllFinished(Exec(Phase1(s, cfg, added), actions))
    ensures var t := Exec(Phase1(s, cfg, added), actions);
      && SerialInv(t)
      && t.configs == cfg
      && t.clusters.Keys == cfg.Keys - Changed(s, cfg)
      && forall n :: n in t.clusters && n in s.clusters ==> t.clusters[n] == s.clusters[n]
  {
    var p := Phase1(s, cfg, added);
    var t := Exec(p, actions);
    var base := Settled(s, cfg, added);
    BeginKeepsSerial(s, cfg, added);
    SettledKeys(s, cfg, added);
    Phase1Settling(s, cfg, added);
    RunSettles(p, actions, cfg, base);
    SettlingEnds(t, cfg, base);
  }

  lemma SettlingEnds(t: State, cfg: map<Name, Config>, base: map<Name, nat>)
    requires Settling(t, cfg, base) && AllFinished(t)
    ensures t.clusters == base
  {
    assert Owed(Last(t)) == map[];
  }

  /** With no update in progress nothing in the map is closing. */
  lemma QuietIsOpen(s: State, n: Name)
    requires SerialInv(s) && AllFinished(s) && n in s.clusters
    ensures !s.entries[s.clusters[n]].closing
    ensures n in s.configs && SameIdentity(s.entries[s.clusters[n]].openedWith, s.configs[n])
  {
    assert Owed(Last(s)) == map[];
  }

  lemma SameConfigMarksNothing(s: State, cfg: map<Name, Config>)
    requires SerialInv(s) && AllFinished(s) && s.configs == cfg
    ensures ToClose(s, cfg) == map[] && Changed(s, cfg) == {}
  {
    forall n | n in s.clusters ensures !Stale(s, cfg, n) {
      QuietIsOpen(s, n);
    }
  }

  lemma NothingMarkedClusters(s: State, cfg: map<Name, Config>, added: seq<Name>)
    requires AllConnect(s, cfg, added) && ToClose(s, cfg) == map[] && Changed(s, cfg) == {}
    ensures var t := Phase1(s, cfg, added);
      && t.updates == s.updates + [Update(map[], Choosing, BUDGET)]
      && t.clusters.Keys == cfg.Keys
      && (forall n :: n in s.clusters ==> n in t.clusters && t.clusters[n] == s.clusters[n])
  {
    SettledKeys(s, cfg, added);
    BindIs(s.clusters, added, |s.entries|);
    assert Phase1(s, cfg, added).clusters == Settled(s, cfg, added);
  }

  /** The same configuration again: nothing is marked, the missing clusters are opened, and
      phase 2 has nothing to do. */
  lemma SecondUpdateIsExact(s: State, cfg: map<Name, Config>, added: seq<Name>)
    requires SerialInv(s) && AllFinished(s) && s.configs == cfg && AllConnect(s, cfg, added)
    ensures var t := Phase1(s, cfg, added);
      && SerialInv(t) && AllFinished(t) && t.configs == cfg
      && t.clusters.Keys == cfg.Keys
      && (forall n :: n in s.clusters ==> n in t.clusters && t.clusters[n] == s.clusters[n])
  {
    SameConfigMarksNothing(s, cfg);
    NothingMarkedClusters(s, cfg, added);
    BeginKeepsSerial(s, cfg, added);
  }

  lemma AddedIsNew(s: State, cfg: map<Name, Config>, added: seq<Name>)
    requires Openable(s, cfg, added)
    ensures added != [] ==> exists n :: n in cfg && n !in s.clusters
  {
    if added != [] { assert added[0] in cfg && added[0] !in s.clusters; }
  }

  /** And again: a no-op. */
  lemma ThirdUpdateIsNoOp(s: State, cfg: map<Name, Config>, added: seq<Name>)
    requires SerialInv(s) && AllFinished(s) && s.configs == cfg && s.clusters.Keys == cfg.Keys
    requires AllConnect(s, cfg, added)
    ensures Phase1(s, cfg, added) == s.(updates := s.updates + [Update(map[], Choosing, BUDGET)])
    ensures AllFinished(Phase1(s, cfg, added))
  {
    SameConfigMarksNothing(s, cfg);
    AddedIsNew(s, cfg, added);
    var t := Phase1(s, cfg, added);
    assert t.entries == s.entries;
    assert t.updates == s.updates + [Update(map[], Choosing, BUDGET)];
  }

  /** Two updates with the same configuration reach it exactly, and a third changes nothing. */
  lemma RepeatedUpdateConverges(s: State, cfg: map<Name, Config>, first: seq<Name>, actions: seq<Action>,
                                second: seq<Name>, third: seq<Name>)
    requires SerialInv(s) && AllFinished(s) && AllConnect(s, cfg, first)
    requires Runs(Phase1(s, cfg, first), actions) && NoBegin(actions)
    requires AllFinished(Exec(Phase1(s, cfg, first), actions))
    requires AllConnect(Exec(Phase1(s, cfg, first), actions), cfg, second)
    requires AllConnect(Phase1(Exec(Phase1(s, cfg, first), actions), cfg, second), cfg, third)
    ensures var two := Phase1(Exec(Phase1(s, cfg, first), actions), cfg, second);
      && two.clusters.Keys == cfg.Keys && AllFinished(two)
      && Phase1(two, cfg, third) == two.(updates := two.updates + [Update(map[], Choosing, BUDGET)])
  {
    UpdateSettles(s, cfg, first, actions);
    var one := Exec(Phase1(s, cfg, first), actions);
    SecondUpdateIsExact(one, cfg, second);
    ThirdUpdateIsNoOp(Phase1(one, cfg, second), cfg, third);
  }
}
