/** Overlapping updates.  `UpdateConfig` deletes by name, so what matters is which entry the name
    leads to by then: when an overlap is safe, step by step, over whole runs, and as something a
    caller can look at before it begins. */
module PoolCover {
  import opened PoolModel
  import opened PoolSafety
  import opened PoolDrain

  predicate Mapped(s: State, e: nat) { e in s.clusters.Values }

  /** An entry that is not closing is in the map. */
  predicate Covered(s: State)
  {
    forall e :: 0 <= e < |s.entries| ==> Mapped(s, e) || s.entries[e].closing
  }

  /** An open database is in the map. */
  predicate NoLeak(s: State)
  {
    forall e :: 0 <= e < |s.entries| ==> Mapped(s, e) || s.entries[e].closed
  }

  /** The entry of that name, if there is one, is closing. */
  predicate LeadsToClosing(s: State, name: Name)
  {
    name in s.clusters && s.clusters[name] < |s.entries| ==> s.entries[s.clusters[name]].closing
  }

  /** What the step takes out of the map is closing. */
  predicate UnmapsClosing(s: State, a: Action)
  {
    match a
    case Delete(u) => u < |s.updates| && s.updates[u].stage.Closed? ==> LeadsToClosing(s, s.updates[u].stage.name)
    case CloseAll => forall n :: n in s.clusters ==> LeadsToClosing(s, n)
    case _ => true
  }

  lemma BeginMaps(s: State, cfg: map<Name, Config>, added: seq<Name>, e: nat)
    requires Openable(s, cfg, added) && e < |s.entries| + |added| && (e < |s.entries| ==> Mapped(s, e))
    ensures Mapped(Phase1(s, cfg, added), e)
  {
    var t := Phase1(s, cfg, added);
    BindIs(s.clusters, added, |s.entries|);
    if e >= |s.entries| {
      assert t.clusters[added[e - |s.entries|]] == e;
    } else {
      var n :| n in s.clusters && s.clusters[n] == e;
      assert n in t.clusters && t.clusters[n] == e;
    }
  }

  lemma BeginCovers(s: State, cfg: map<Name, Config>, added: seq<Name>)
    requires Covered(s) && Openable(s, cfg, added)
    ensures Covered(Phase1(s, cfg, added))
  {
    var t := Phase1(s, cfg, added);
    forall e | 0 <= e < |t.entries| ensures Mapped(t, e) || t.entries[e].closing {
      if e >= |s.entries| || Mapped(s, e) { BeginMaps(s, cfg, added, e); }
    }
  }

  /** Taking one name out of the map takes out its entry and no other. */
  lemma UnmapOne(s: State, t: State, name: Name, e: nat)
    requires MapOk(s) && t.clusters == s.clusters - {name}
    ensures Mapped(t, e) <==> Mapped(s, e) && !(name in s.clusters && s.clusters[name] == e)
  {
    if Mapped(s, e) {
      var n :| n in s.clusters && s.clusters[n] == e;
      if n != name { assert n in t.clusters && t.clusters[n] == e; }
    }
    if Mapped(t, e) {
      var n :| n in t.clusters && t.clusters[n] == e;
      assert n in s.clusters && s.clusters[n] == e;
    }
  }

  lemma DeleteCovers(s: State, u: nat)
    requires Inv(s) && Covered(s) && Enabled(s, Delete(u))
    ensures Covered(Next(s, Delete(u))) <==> LeadsToClosing(s, s.updates[u].stage.name)
  {
    var t, name := Next(s, Delete(u)), s.updates[u].stage.name;
    forall e | 0 <= e < |s.entries|
      ensures Mapped(t, e) <==> Mapped(s, e) && !(name in s.clusters && s.clusters[name] == e)
    {
      UnmapOne(s, t, name, e);
    }
    if name in s.clusters { assert !Mapped(t, s.clusters[name]); }
  }

  lemma CloseAllCovers(s: State)
    requires Inv(s) && Covered(s)
    ensures Covered(Next(s, CloseAll)) <==> forall n :: n in s.clusters ==> LeadsToClosing(s, n)
  {
    var t := Next(s, CloseAll);
    forall e | 0 <= e < |t.entries| ensures !Mapped(t, e) { assert t.clusters.Values == {}; }
    if Covered(t) {
      forall n | n in s.clusters ensures LeadsToClosing(s, n) { assert !Mapped(t, s.clusters[n]); }
    } else {
      var e :| 0 <= e < |t.entries| && !t.entries[e].closing;
      assert Mapped(s, e);
      var n :| n in s.clusters && s.clusters[n] == e;
      assert !LeadsToClosing(s, n);
    }
  }

  lemma OtherStepCovers(s: State, a: Action)
    requires Covered(s) && Enabled(s, a) && !a.Begin? && !a.Delete? && !a.CloseAll?
    ensures Covered(Next(s, a))
  {
    var t := Next(s, a);
    if OfUpdate(a) { UpdateStepAdvances(s, a); } else { OtherStepAdvances(s, a); }
    assert t.clusters == s.clusters;
    forall e | 0 <= e < |t.entries| ensures Mapped(t, e) || t.entries[e].closing {
      assert Mapped(s, e) || s.entries[e].closing;
    }
  }

  /** Step by step, in any interleaving: an entry that is not closing stays in the map exactly
      when what the step takes out of the map is closing. */
  lemma StepCovers(s: State, a: Action)
    requires Inv(s) && Covered(s) && Enabled(s, a)
    ensures Covered(Next(s, a)) <==> UnmapsClosing(s, a)
  {
    match a
    case Begin(cfg, added) => BeginCovers(s, cfg, added);
    case Delete(u) => DeleteCovers(s, u);
    case CloseAll => CloseAllCovers(s);
    case _ => OtherStepCovers(s, a);
  }

  // ---- Whole runs, overlapping as they may ----

  predicate CoveredThroughout(s: State, actions: seq<Action>)
    requires Runs(s, actions)
    decreases |actions|
  {
    Covered(s) && (actions != [] ==> CoveredThroughout(Next(s, actions[0]), actions[1..]))
  }

  predicate UnmapsClosingThroughout(s: State, actions: seq<Action>)
    requires Runs(s, actions)
    decreases |actions|
  {
    actions != [] ==> UnmapsClosing(s, actions[0]) && UnmapsClosingThroughout(Next(s, actions[0]), actions[1..])
  }

  lemma {:induction false} RunCovers(s: State, actions: seq<Action>)
    requires Inv(s) && Covered(s) && Runs(s, actions)
    ensures CoveredThroughout(s, actions) <==> UnmapsClosingThroughout(s, actions)
    decreases |actions|
  {
    if actions != [] {
      var t := Next(s, actions[0]);
      StepCovers(s, actions[0]);
      NextKeepsInv(s, actions[0]);
      if Covered(t) { RunCovers(t, actions[1..]); }
    }
  }

  lemma InitialCovered(cfg: map<Name, Config>, order: seq<Name>)
    requires InitialOrder(cfg, order)
    ensures Inv(Initial(cfg, order)) && Covered(Initial(cfg, order)) && NoLeak(Initial(cfg, order))
  {
    InitialInv(cfg, order);
    var s := Initial(cfg, order);
    forall e | 0 <= e < |s.entries| ensures Mapped(s, e) {
      BeginMaps(EMPTY, cfg, order, e);
    }
  }

  /** In every run from a new pool, with any overlaps and any shutdowns: every entry that is not
      closing is in the map at all times exactly when everything ever taken out of the map was
      closing. */
  lemma CoveredExactlyWhen(cfg: map<Name, Config>, order: seq<Name>, actions: seq<Action>)
    requires Possible(cfg, order, actions)
    ensures CoveredThroughout(Initial(cfg, order), actions) <==> UnmapsClosingThroughout(Initial(cfg, order), actions)
  {
    InitialCovered(cfg, order);
    RunCovers(Initial(cfg, order), actions);
  }

  /** As long as that is so, a `Get` that finds its entry not closing finds it in the map,
      configured, and under the identity it was opened with. */
  lemma CoveredGetSeesCurrentIdentity(s: State, k: nat)
    requires Inv(s) && Covered(s) && IsGet(s, k, Looked) && !s.entries[s.gets[k].entry].closing
    ensures var g := s.gets[k];
      && g.name in s.clusters && s.clusters[g.name] == g.entry
      && g.name in s.configs
      && var was, now := s.entries[g.entry].openedWith, s.configs[g.name];
         was.host == now.host && was.port == now.port &&
         was.username == now.username && was.password == now.password
  {
    assert GetOk(s, s.gets[k]);
    assert Mapped(s, s.gets[k].entry);
  }

  // ---- What a caller can look at before it begins ----

  /** The clusters an update has still to close, with the entry it will close. */
  function Owed(u: Update): map<Name, nat>
  {
    if u.stage.Choosing? then u.todo else u.todo[u.stage.name := u.stage.entry]
  }

  /** No name that is about to be added is still owed by an unfinished update. */
  predicate AddsNothingOwed(s: State, added: seq<Name>)
  {
    forall u, n {:trigger n in Owed(s.updates[u])} ::
      0 <= u < |s.updates| && n in Owed(s.updates[u]) ==> n !in added
  }

  /** A name an update owes leads to the entry it marked, or nowhere; it chooses it once, and what
      it is about to delete is closed. */
  predicate OweOk(s: State, u: Update)
  {
    && (!u.stage.Choosing? ==> u.stage.name !in u.todo)
    && (u.stage.Closed? ==> u.stage.entry < |s.entries| && s.entries[u.stage.entry].closed)
    && (forall n :: n in Owed(u) && n in s.clusters ==> s.clusters[n] == Owed(u)[n])
  }

  predicate CareInv(s: State)
  {
    Inv(s) && NoLeak(s) && forall u :: 0 <= u < |s.updates| ==> OweOk(s, s.updates[u])
  }

  /** `t` is `s` with some clusters and some debts gone. */
  predicate Narrows(s: State, t: State)
  {
    && (forall n :: n in t.clusters ==> n in s.clusters && t.clusters[n] == s.clusters[n])
    && |t.entries| == |s.entries|
    && (forall e :: 0 <= e < |s.entries| && s.entries[e].closed ==> t.entries[e].closed)
    && |t.updates| == |s.updates|
  }

  predicate Repays(before: Update, after: Update)
  {
    && (!after.stage.Choosing? ==> after.stage.name !in after.todo)
    && (forall n :: n in Owed(after) ==> n in Owed(before) && Owed(after)[n] == Owed(before)[n])
  }

  lemma UpdateStepNarrows(s: State, a: Action)
    requires Enabled(s, a) && OfUpdate(a) && OweOk(s, s.updates[a.upd])
    ensures Narrows(s, Next(s, a))
    ensures Repays(s.updates[a.upd], Next(s, a).updates[a.upd]) && OweOk(Next(s, a), Next(s, a).updates[a.upd])
    ensures forall u :: 0 <= u < |s.updates| && u != a.upd ==> Next(s, a).updates[u] == s.updates[u]
  {
  }

  lemma OtherStepNarrows(s: State, a: Action)
    requires Enabled(s, a) && !OfUpdate(a) && !a.Begin?
    ensures Narrows(s, Next(s, a)) && Next(s, a).updates == s.updates
  {
  }

  lemma NarrowKeepsOwe(s: State, t: State, u: Update)
    requires Narrows(s, t) && OweOk(s, u)
    ensures OweOk(t, u)
  {
  }

  lemma StepKeepsOwe(s: State, a: Action, u: nat)
    requires CareInv(s) && Enabled(s, a) && !a.Begin? && u < |Next(s, a).updates|
    ensures OweOk(Next(s, a), Next(s, a).updates[u])
  {
    var t := Next(s, a);
    if OfUpdate(a) {
      assert OweOk(s, s.updates[a.upd]);
      UpdateStepNarrows(s, a);
    } else {
      OtherStepNarrows(s, a);
    }
    if !(OfUpdate(a) && u == a.upd) {
      assert OweOk(s, s.updates[u]);
      NarrowKeepsOwe(s, t, s.updates[u]);
    }
  }

  lemma BeginKeepsOwe(s: State, cfg: map<Name, Config>, added: seq<Name>, u: nat)
    requires CareInv(s) && Openable(s, cfg, added) && AddsNothingOwed(s, added) && u <= |s.updates|
    ensures OweOk(Phase1(s, cfg, added), Phase1(s, cfg, added).updates[u])
  {
    var t := Phase1(s, cfg, added);
    BindIs(s.clusters, added, |s.entries|);
    if u < |s.updates| { assert OweOk(s, s.updates[u]); }
  }

  lemma DeleteKeepsNoLeak(s: State, u: nat)
    requires CareInv(s) && Enabled(s, Delete(u))
    ensures NoLeak(Next(s, Delete(u)))
  {
    var t, upd := Next(s, Delete(u)), s.updates[u];
    assert OweOk(s, upd) && upd.stage.name in Owed(upd);
    forall e | 0 <= e < |t.entries| ensures Mapped(t, e) || t.entries[e].closed {
      assert Mapped(s, e) || s.entries[e].closed;
      UnmapOne(s, t, upd.stage.name, e);
    }
  }

  lemma OtherStepKeepsNoLeak(s: State, a: Action)
    requires CareInv(s) && Enabled(s, a) && !a.Begin? && !a.Delete? && !a.CloseAll?
    ensures NoLeak(Next(s, a))
  {
    var t := Next(s, a);
    if OfUpdate(a) {
      assert OweOk(s, s.updates[a.upd]);
      UpdateStepNarrows(s, a);
    } else {
      OtherStepNarrows(s, a);
    }
    assert t.clusters == s.clusters;
    forall e | 0 <= e < |t.entries| ensures Mapped(t, e) || t.entries[e].closed {
      assert Mapped(s, e) || s.entries[e].closed;
    }
  }

  lemma NextKeepsNoLeak(s: State, a: Action)
    requires CareInv(s) && Enabled(s, a)
    ensures NoLeak(Next(s, a))
  {
    var t := Next(s, a);
    match a
    case Begin(cfg, added) =>
      forall e | 0 <= e < |t.entries| ensures Mapped(t, e) || t.entries[e].closed {
        if e >= |s.entries| || Mapped(s, e) { BeginMaps(s, cfg, added, e); }
      }
    case Delete(u) => DeleteKeepsNoLeak(s, u);
    case CloseAll =>
      forall e | 0 <= e < |t.entries| ensures t.entries[e].closed { assert Mapped(s, e) || s.entries[e].closed; }
    case _ => OtherStepKeepsNoLeak(s, a);
  }

  /** A call that begins adds no name that another one still owes. */
  predicate Careful(s: State, a: Action)
  {
    a.Begin? ==> AddsNothingOwed(s, a.added)
  }

  lemma NextKeepsCare(s: State, a: Action)
    requires CareInv(s) && Enabled(s, a) && Careful(s, a)
    ensures CareInv(Next(s, a))
  {
    NextKeepsInv(s, a);
    NextKeepsNoLeak(s, a);
    var t := Next(s, a);
    forall u | 0 <= u < |t.updates| ensures OweOk(t, t.updates[u]) {
      if a.Begin? { BeginKeepsOwe(s, a.cfg, a.added, u); } else { StepKeepsOwe(s, a, u); }
    }
  }

  /** With such debts every delete takes a closing entry, its own. */
  lemma CareUnmapsClosing(s: State, a: Action)
    requires CareInv(s) && Enabled(s, a) && !a.CloseAll?
    ensures UnmapsClosing(s, a)
  {
    if a.Delete? {
      var upd := s.updates[a.upd];
      assert OweOk(s, upd) && upd.stage.name in Owed(upd);
      assert UpdateOk(s, upd) && upd.stage.entry in Pending(upd);
    }
  }

  predicate CarefulRuns(s: State, actions: seq<Action>)
    decreases |actions|
  {
    actions == [] ||
    (Enabled(s, actions[0]) && Careful(s, actions[0]) && CarefulRuns(Next(s, actions[0]), actions[1..]))
  }

  lemma {:induction false} CarefulRunsRun(s: State, actions: seq<Action>)
    requires CarefulRuns(s, actions)
    ensures Runs(s, actions)
    decreases |actions|
  {
    if actions != [] { CarefulRunsRun(Next(s, actions[0]), actions[1..]); }
  }

  predicate NoShutdown(actions: seq<Action>)
  {
    forall i :: 0 <= i < |actions| ==> !actions[i].CloseAll?
  }

  lemma {:induction false} RunKeepsCare(s: State, actions: seq<Action>)
    requires CareInv(s) && CarefulRuns(s, actions)
    ensures Runs(s, actions) && CareInv(Exec(s, actions))
    ensures Covered(s) && NoShutdown(actions) ==> Covered(Exec(s, actions))
    decreases |actions|
  {
    CarefulRunsRun(s, actions);
    if actions != [] {
      NextKeepsCare(s, actions[0]);
      if Covered(s) && NoShutdown(actions) {
        assert !actions[0].CloseAll?;
        CareUnmapsClosing(s, actions[0]);
        StepCovers(s, actions[0]);
      }
      RunKeepsCare(Next(s, actions[0]), actions[1..]);
    }
  }

  lemma InitialCare(cfg: map<Name, Config>, order: seq<Name>)
    requires InitialOrder(cfg, order)
    ensures CareInv(Initial(cfg, order))
  {
    InitialCovered(cfg, order);
  }

  /** If no call adds a name that another one still owes, then, with any overlaps and any shutdowns,
      no database leaks: every one ever opened is in the map or closed. */
  lemma CarefulRunsLeakNothing(cfg: map<Name, Config>, order: seq<Name>, actions: seq<Action>)
    requires InitialOrder(cfg, order) && CarefulRuns(Initial(cfg, order), actions)
    ensures Possible(cfg, order, actions) && NoLeak(Reached(cfg, order, actions))
  {
    InitialCare(cfg, order);
    RunKeepsCare(Initial(cfg, order), actions);
  }

  /** And until the pool is shut down, a `Get` that finds its entry not closing finds it in the map,
      configured, and under the identity it was opened with. */
  lemma CarefulGetSeesCurrentIdentity(cfg: map<Name, Config>, order: seq<Name>, actions: seq<Action>, k: nat)
    requires InitialOrder(cfg, order) && CarefulRuns(Initial(cfg, order), actions) && NoShutdown(actions)
    ensures Possible(cfg, order, actions)
    ensures var s := Reached(cfg, order, actions);
      IsGet(s, k, Looked) && !s.entries[s.gets[k].entry].closing ==>
        var g := s.gets[k];
        && g.name in s.clusters && s.clusters[g.name] == g.entry
        && g.name in s.configs
        && var was, now := s.entries[g.entry].openedWith, s.configs[g.name];
           was.host == now.host && was.port == now.port &&
           was.username == now.username && was.password == now.password
  {
    InitialCare(cfg, order);
    InitialCovered(cfg, order);
    RunKeepsCare(Initial(cfg, order), actions);
    var s := Reached(cfg, order, actions);
    if IsGet(s, k, Looked) && !s.entries[s.gets[k].entry].closing { CoveredGetSeesCurrentIdentity(s, k); }
  }

  // ---- The condition is exact ----

  predicate NoBegin(actions: seq<Action>)
  {
    forall i :: 0 <= i < |actions| ==> !actions[i].Begin? && !actions[i].CloseAll?
  }

  /** An entry that is open and not closing, but no longer in the map. */
  predicate Leaked(s: State, e: nat)
  {
    e < |s.entries| && !s.entries[e].closing && !s.entries[e].closed && !Mapped(s, e)
  }

  /** The next step of update `u` on its way to deleting `name`. */
  function Towards(u: nat, upd: Update, name: Name): Action
  {
    match upd.stage
    case Choosing => Choose(u, name)
    case Waiting(_, _) => Observe(u)
    case Busy(_, _) => if upd.ticks > 0 then Wait(u) else TimeOut(u)
    case Ready(_, _, _) => CloseDb(u)
    case Closed(_, _) => Delete(u)
  }

  /** Update `u` owes `name`, which leads to the open entry `f` that it never marked. */
  predicate Doomed(s: State, u: nat, name: Name, f: nat)
  {
    && u < |s.updates| && name in Owed(s.updates[u])
    && name in s.clusters && s.clusters[name] == f < |s.entries|
    && !s.entries[f].closing && !s.entries[f].closed
  }

  lemma TowardsIsOwn(s: State, u: nat, name: Name, f: nat)
    requires Inv(s) && Doomed(s, u, name, f)
    ensures var a := Towards(u, s.updates[u], name); Enabled(s, a) && Mine(a, u)
  {
    var upd := s.updates[u];
    assert UpdateOk(s, upd);
    if !upd.stage.Choosing? { assert upd.stage.entry in Pending(upd); }
  }

  lemma WaitingStaysDoomed(s: State, u: nat, name: Name, f: nat)
    requires Doomed(s, u, name, f) && !s.updates[u].stage.Ready? && !s.updates[u].stage.Closed?
    requires Enabled(s, Towards(u, s.updates[u], name))
    ensures Doomed(Next(s, Towards(u, s.updates[u], name)), u, name, f)
  {
  }

  lemma ClosingStaysDoomed(s: State, u: nat, name: Name, f: nat)
    requires Inv(s) && Doomed(s, u, name, f) && s.updates[u].stage.Ready? && Enabled(s, CloseDb(u))
    ensures Doomed(Next(s, CloseDb(u)), u, name, f)
  {
    assert UpdateOk(s, s.updates[u]) && s.updates[u].stage.entry in Pending(s.updates[u]);
  }

  lemma DeletingLeaks(s: State, u: nat, name: Name, f: nat)
    requires MapOk(s) && Doomed(s, u, name, f) && Enabled(s, Delete(u))
    ensures var t := Next(s, Delete(u));
      if s.updates[u].stage.name == name then Leaked(t, f) else Doomed(t, u, name, f)
  {
    UnmapOne(s, Next(s, Delete(u)), s.updates[u].stage.name, f);
  }

  lemma TowardsLeak(s: State, u: nat, name: Name, f: nat)
    requires Inv(s) && Doomed(s, u, name, f) && Enabled(s, Towards(u, s.updates[u], name))
    ensures var t := Next(s, Towards(u, s.updates[u], name));
      Doomed(t, u, name, f) || Leaked(t, f)
  {
    match s.updates[u].stage
    case Ready(_, _, _) => ClosingStaysDoomed(s, u, name, f);
    case Closed(_, _) => DeletingLeaks(s, u, name, f);
    case _ => WaitingStaysDoomed(s, u, name, f);
  }

  lemma LeakPrepend(s: State, a: Action, rest: seq<Action>, f: nat)
    requires Enabled(s, a) && !a.Begin? && !a.CloseAll?
    requires Runs(Next(s, a), rest) && NoBegin(rest) && Leaked(Exec(Next(s, a), rest), f)
    ensures Runs(s, [a] + rest) && NoBegin([a] + rest) && Leaked(Exec(s, [a] + rest), f)
  {
    assert ([a] + rest)[1..] == rest;
  }

  /** It will delete that name, if it is left to run. */
  lemma {:induction false} DoomedLeaks(s: State, u: nat, name: Name, f: nat) returns (steps: seq<Action>)
    requires Inv(s) && Doomed(s, u, name, f)
    ensures Runs(s, steps) && NoBegin(steps) && Leaked(Exec(s, steps), f)
    decreases Rank(s.updates[u])
  {
    var a := Towards(u, s.updates[u], name);
    TowardsIsOwn(s, u, name, f);
    TowardsLeak(s, u, name, f);
    OwnStepLowersRank(s, a, u);
    NextKeepsInv(s, a);
    var rest := [];
    if !Leaked(Next(s, a), f) { rest := DoomedLeaks(Next(s, a), u, name, f); }
    LeakPrepend(s, a, rest, f);
    steps := [a] + rest;
  }

  lemma {:induction false} NoBeginIsCareful(s: State, actions: seq<Action>)
    requires Runs(s, actions) && NoBegin(actions)
    ensures CarefulRuns(s, actions)
    decreases |actions|
  {
    if actions != [] {
      assert !actions[0].Begin?;
      NoBeginIsCareful(Next(s, actions[0]), actions[1..]);
    }
  }

  ghost predicate NeverLeaks(t: State)
  {
    forall steps :: Runs(t, steps) && NoBegin(steps) ==> NoLeak(Exec(t, steps))
  }

  ghost predicate StaysCovered(t: State)
  {
    forall steps :: Runs(t, steps) && NoBegin(steps) ==> Covered(Exec(t, steps))
  }

  lemma AddedIsFresh(s: State, cfg: map<Name, Config>, added: seq<Name>, i: nat)
    requires Openable(s, cfg, added) && i < |added|
    ensures var t := Phase1(s, cfg, added); var f := |s.entries| + i;
      && added[i] in t.clusters && t.clusters[added[i]] == f < |t.entries|
      && t.entries[f] == Fresh(cfg[added[i]])
  {
    BindIs(s.clusters, added, |s.entries|);
  }

  lemma AddingOwedDooms(s: State, cfg: map<Name, Config>, added: seq<Name>) returns (u: nat, name: Name, f: nat)
    requires Inv(s) && Openable(s, cfg, added) && !AddsNothingOwed(s, added)
    ensures Inv(Phase1(s, cfg, added)) && Doomed(Phase1(s, cfg, added), u, name, f)
  {
    u, name :| 0 <= u < |s.updates| && name in Owed(s.updates[u]) && name in added;
    var i :| 0 <= i < |added| && added[i] == name;
    f := |s.entries| + i;
    AddedIsFresh(s, cfg, added, i);
    Phase1KeepsInv(s, cfg, added);
    assert Phase1(s, cfg, added).updates[u] == s.updates[u];
  }

  /** A call that begins beside others is safe, in that nothing can leak and no open entry can leave
      the map however the calls under way go on, exactly when it adds no name that one of them
      still owes. */
  lemma OverlapIsSafeExactlyWhen(s: State, cfg: map<Name, Config>, added: seq<Name>)
    requires CareInv(s) && Covered(s) && Openable(s, cfg, added)
    ensures AddsNothingOwed(s, added) <==> NeverLeaks(Next(s, Begin(cfg, added)))
    ensures AddsNothingOwed(s, added) <==> StaysCovered(Next(s, Begin(cfg, added)))
  {
    var t := Next(s, Begin(cfg, added));
    if AddsNothingOwed(s, added) {
      NextKeepsCare(s, Begin(cfg, added));
      BeginCovers(s, cfg, added);
      forall steps | Runs(t, steps) && NoBegin(steps) ensures NoLeak(Exec(t, steps)) && Covered(Exec(t, steps)) {
        NoBeginIsCareful(t, steps);
        RunKeepsCare(t, steps);
      }
    } else {
      var u, name, f := AddingOwedDooms(s, cfg, added);
      var steps := DoomedLeaks(t, u, name, f);
      assert !NoLeak(Exec(t, steps)) && !Covered(Exec(t, steps));
    }
  }
}
