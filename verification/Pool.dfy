/** The pool object.  Map iteration order is arbitrary; which clusters can be connected to is a
    parameter.  Each method is one or more atomic steps of `PoolModel`, run without interruption. */
module Pool {
  import opened Options
  import opened PoolModel
  import opened PoolSafety
  import opened PoolDrain
  import opened PoolCover
  import opened PoolConvergence

  lemma {:induction false} BindAppend(clusters: map<Name, nat>, added: seq<Name>, name: Name, base: nat)
    ensures Bind(clusters, added + [name], base) == Bind(clusters, added, base)[name := base + |added|]
    decreases |added|
  {
    if added == [] {
      assert [name][1..] == [] && added + [name] == [name];
    } else {
      BindAppend(clusters[added[0] := base], added[1..], name, base + 1);
      assert (added + [name])[1..] == added[1..] + [name];
    }
  }

  /** One more name of `m` taken off the work list `todo`. */
  lemma TakeOne(m: map<Name, nat>, todo: set<Name>, name: Name)
    requires name in todo
    ensures name !in m - todo
    ensures m - (todo - {name}) == if name in m then (m - todo)[name := m[name]] else m - todo
  {
  }

  lemma OneMoreValue(m: map<Name, nat>, name: Name, e: nat)
    requires name !in m
    ensures m[name := e].Values == m.Values + {e}
  {
    var r := m[name := e];
    assert r[name] == e;
    forall v | v in m.Values ensures v in r.Values {
      var n :| n in m && m[n] == v;
      assert r[n] == v;
    }
  }

  lemma MarkOne(entries: seq<Entry>, m: map<Name, nat>, name: Name, e: nat)
    requires name !in m && e < |entries|
    ensures var now := MarkAll(entries, m.Values);
      now[e := now[e].(closing := true)] == MarkAll(entries, m[name := e].Values)
  {
    OneMoreValue(m, name, e);
  }

  lemma CloseOne(entries: seq<Entry>, m: map<Name, nat>, name: Name, e: nat)
    requires name !in m && e < |entries|
    ensures var now := CloseEntries(entries, m.Values);
      now[e := now[e].(closed := true)] == CloseEntries(entries, m[name := e].Values)
  {
    OneMoreValue(m, name, e);
  }

  lemma OpenableOne(s: State, cfg: map<Name, Config>, added: seq<Name>, name: Name)
    requires Openable(s, cfg, added) && name in cfg && name !in s.clusters && name !in added
    ensures Openable(s, cfg, added + [name])
  {
    var r := added + [name];
    forall i | 0 <= i < |r| ensures r[i] in cfg && r[i] !in s.clusters {
      if i < |added| { assert r[i] == added[i]; }
    }
    forall i, j | 0 <= i < j < |r| ensures r[i] != r[j] {
      assert r[i] == added[i] && added[i] in added;
      if j < |added| { assert r[j] == added[j]; }
    }
  }

  lemma {:induction false} BindHas(clusters: map<Name, nat>, added: seq<Name>, base: nat, name: Name)
    ensures name in Bind(clusters, added, base) <==> name in clusters || name in added
    decreases |added|
  {
    if added != [] {
      BindHas(clusters[added[0] := base], added[1..], base + 1, name);
      assert added == [added[0]] + added[1..];
    }
  }

  lemma DeleteOne(m: map<Name, nat>, all: set<Name>, todo: set<Name>, name: Name)
    requires name in todo && todo <= all
    ensures m - (all - todo) - {name} == m - (all - (todo - {name}))
  {
  }

  lemma OpenOne(cfg: map<Name, Config>, added: seq<Name>, name: Name)
    requires name in cfg && forall i :: 0 <= i < |added| ==> added[i] in cfg
    ensures Open(cfg, added + [name]) == Open(cfg, added) + [Fresh(cfg[name])]
  {
  }

  // ---- The two loops of phase 1 ----

  /** The stale clusters are marked, but for those of `todo`. */
  function Marked(s: State, cfg: map<Name, Config>, todo: set<Name>): State
  {
    s.(entries := MarkAll(s.entries, (ToClose(s, cfg) - todo).Values))
  }

  lemma MarkedNone(s: State, cfg: map<Name, Config>)
    ensures ToClose(s, cfg) - s.clusters.Keys == map[] && Marked(s, cfg, s.clusters.Keys) == s
  {
    assert ToClose(s, cfg) - s.clusters.Keys == map[];
    assert MarkAll(s.entries, {}) == s.entries;
  }

  lemma MarkedNext(s: State, cfg: map<Name, Config>, todo: set<Name>, name: Name)
    requires name in todo && name in s.clusters && s.clusters[name] < |s.entries|
    ensures var m, e := Marked(s, cfg, todo), s.clusters[name];
      && Stale(m, cfg, name) == Stale(s, cfg, name)
      && Marked(s, cfg, todo - {name}) ==
           (if Stale(s, cfg, name) then m.(entries := m.entries[e := m.entries[e].(closing := true)]) else m)
      && ToClose(s, cfg) - (todo - {name}) ==
           (if Stale(s, cfg, name) then (ToClose(s, cfg) - todo)[name := e] else ToClose(s, cfg) - todo)
  {
    TakeOne(ToClose(s, cfg), todo, name);
    MarkOne(s.entries, ToClose(s, cfg) - todo, name, s.clusters[name]);
  }

  /** The clusters of `added` are opened. */
  function WithAdded(s: State, cfg: map<Name, Config>, added: seq<Name>): State
    requires Openable(s, cfg, added)
  {
    s.(clusters := Bind(s.clusters, added, |s.entries|), entries := s.entries + Open(cfg, added))
  }

  lemma AddedNext(s: State, cfg: map<Name, Config>, added: seq<Name>, name: Name)
    requires Openable(s, cfg, added) && name in cfg && name !in s.clusters && name !in added
    ensures Openable(s, cfg, added + [name])
    ensures var m := WithAdded(s, cfg, added);
      WithAdded(s, cfg, added + [name]) ==
        m.(clusters := m.clusters[name := |m.entries|], entries := m.entries + [Fresh(cfg[name])])
  {
    OpenableOne(s, cfg, added, name);
    BindAppend(s.clusters, added, name, |s.entries|);
    OpenOne(cfg, added, name);
  }

  // ---- Runs of phase 2 ----

  predicate IsUpdate(s: State, u: nat, ticks: nat)
  {
    u < |s.updates| && s.updates[u].ticks == ticks
  }

  /** `steps` lead from `start` to `s`, and none of them begins an update or shuts the pool down. */
  predicate Drained(start: State, steps: seq<Action>, s: State)
  {
    LeadsTo(start, steps, s) && NoBegin(steps)
  }

  lemma DrainsFurther(start: State, steps: seq<Action>, s: State, a: Action)
    requires Drained(start, steps, s) && Enabled(s, a) && OfUpdate(a)
    ensures Drained(start, steps + [a], Next(s, a))
  {
    LeadsFurther(start, steps, s, a);
  }

  lemma {:induction false} NoBeginIsSerial(s: State, actions: seq<Action>)
    requires Runs(s, actions) && NoBegin(actions)
    ensures SerialRuns(s, actions)
    decreases |actions|
  {
    if actions != [] {
      assert !actions[0].Begin? && !actions[0].CloseAll?;
      NoBeginIsSerial(Next(s, actions[0]), actions[1..]);
    }
  }

  /** The invariant of serial runs, between updates. */
  predicate Quiet(s: State)
  {
    SerialInv(s) && AllFinished(s)
  }

  lemma CallKeepsQuiet(s: State, cfg: map<Name, Config>, added: seq<Name>, steps: seq<Action>, t: State)
    requires Quiet(s) && Openable(s, cfg, added) && Drained(Phase1(s, cfg, added), steps, t)
    requires t.updates != [] && Finished(t.updates[|t.updates| - 1])
    ensures Quiet(t)
  {
    BeginKeepsSerial(s, cfg, added);
    NoBeginIsSerial(Phase1(s, cfg, added), steps);
    RunKeepsSerial(Phase1(s, cfg, added), steps);
    LastFinishes(t);
  }

  /** The cluster has the entry it had before. */
  predicate KeepsEntry(s: State, t: State, n: Name)
    requires n in s.clusters
  {
    n in t.clusters && t.clusters[n] == s.clusters[n]
  }

  predicate StillConfigured(s: State, cfg: map<Name, Config>, n: Name)
    requires n in s.configs
  {
    && n in cfg
    && var was, now := s.configs[n], cfg[n];
       was.host == now.host && was.port == now.port &&
       was.username == now.username && was.password == now.password
  }

  lemma StaleIsDropped(s: State, cfg: map<Name, Config>, added: seq<Name>, t: State, n: Name)
    requires MapOk(s) && Openable(s, cfg, added) && n in s.clusters
    requires t.clusters == Settled(s, cfg, added)
    requires t.entries == CloseEntries(Phase1(s, cfg, added).entries, ToClose(s, cfg).Values)
    ensures s.clusters[n] < |t.entries|
    ensures KeepsEntry(s, t, n) <==> !Stale(s, cfg, n)
    ensures Stale(s, cfg, n) ==> t.entries[s.clusters[n]].closed
  {
    BindIs(s.clusters, added, |s.entries|);
    if Stale(s, cfg, n) { StaleIsMarked(s, cfg, n); }
  }

  lemma KeptExactlyWhen(s: State, cfg: map<Name, Config>, added: seq<Name>, t: State, n: Name)
    requires Quiet(s) && Openable(s, cfg, added) && n in s.clusters
    requires t.clusters == Settled(s, cfg, added)
    requires t.entries == CloseEntries(Phase1(s, cfg, added).entries, ToClose(s, cfg).Values)
    ensures n in s.configs && s.clusters[n] < |t.entries|
    ensures KeepsEntry(s, t, n) <==> StillConfigured(s, cfg, n)
    ensures !KeepsEntry(s, t, n) ==> t.entries[s.clusters[n]].closed
  {
    QuietIsOpen(s, n);
    StaleIsDropped(s, cfg, added, t, n);
  }

  lemma LastFinishes(t: State)
    requires EarlierFinished(t) && t.updates != [] && Finished(t.updates[|t.updates| - 1])
    ensures AllFinished(t)
  {
  }

  /** The part of `m` that is still to do. */
  function Rest(m: map<Name, nat>, todo: set<Name>): map<Name, nat>
  {
    map n | n in m && n in todo :: m[n]
  }

  /** Phase 2 of update `u`, begun in `s`, with `todo` of the marked entries still to do. */
  function Midway(s: State, u: nat, toClose: map<Name, nat>, todo: set<Name>, ticks: nat): State
    requires u < |s.updates|
  {
    s.(clusters := s.clusters - (toClose.Keys - todo), entries := CloseEntries(s.entries, (toClose - todo).Values),
       updates := s.updates[u := Update(Rest(toClose, todo), Choosing, ticks)])
  }

  lemma MidwayNext(s: State, u: nat, toClose: map<Name, nat>, todo: set<Name>, name: Name, before: nat, left: nat)
    requires u < |s.updates| && todo <= toClose.Keys && name in todo && toClose[name] < |s.entries|
    ensures var m := Midway(s, u, toClose, todo, before);
      Midway(s, u, toClose, todo - {name}, left) == m.(
        clusters := m.clusters - {name},
        entries := m.entries[toClose[name] := m.entries[toClose[name]].(closed := true)],
        updates := m.updates[u := Update(Rest(toClose, todo - {name}), Choosing, left)])
  {
    TakeOne(toClose, todo, name);
    CloseOne(s.entries, toClose - todo, name, toClose[name]);
    DeleteOne(s.clusters, toClose.Keys, todo, name);
  }

  lemma MidwayChooses(s: State, u: nat, toClose: map<Name, nat>, todo: set<Name>, name: Name, ticks: nat)
    requires u < |s.updates| && todo <= toClose.Keys && name in todo
    ensures var m := Midway(s, u, toClose, todo, ticks);
      && Enabled(m, Choose(u, name))
      && Next(m, Choose(u, name)) ==
           m.(updates := m.updates[u := Update(Rest(toClose, todo - {name}), Waiting(name, toClose[name]), ticks)])
  {
    assert Rest(toClose, todo) - {name} == Rest(toClose, todo - {name});
  }

  lemma MidwayEnds(s: State, u: nat, toClose: map<Name, nat>)
    requires u < |s.updates| && s.updates[u] == Update(toClose, Choosing, BUDGET)
    ensures Midway(s, u, toClose, toClose.Keys, BUDGET) == s
    ensures Rest(toClose, {}) == map[] && toClose - {} == toClose && toClose.Keys - {} == toClose.Keys
  {
    assert toClose - toClose.Keys == map[] && Rest(toClose, toClose.Keys) == toClose;
    assert s.clusters - (toClose.Keys - toClose.Keys) == s.clusters;
    assert CloseEntries(s.entries, {}) == s.entries;
  }

  /** The pool that `NewPool` is building, after opening `order`. */
  function Opened(cfg: map<Name, Config>, order: seq<Name>): State
    requires Openable(EMPTY, cfg, order)
  {
    EMPTY.(configs := cfg, clusters := Bind(map[], order, 0), entries := Open(cfg, order))
  }

  lemma OpenedNext(cfg: map<Name, Config>, order: seq<Name>, name: Name)
    requires Openable(EMPTY, cfg, order) && name in cfg && name !in order
    ensures Openable(EMPTY, cfg, order + [name])
    ensures Opened(cfg, order + [name]) == Opened(cfg, order).(
      clusters := Opened(cfg, order).clusters[name := |order|],
      entries := Opened(cfg, order).entries + [Fresh(cfg[name])])
  {
    BindAppend(map[], order, name, 0);
    OpenOne(cfg, order, name);
  }

  lemma OpenedAreMapped(cfg: map<Name, Config>, order: seq<Name>)
    requires Openable(EMPTY, cfg, order)
    ensures var s := Opened(cfg, order);
      && (forall n :: n in s.clusters ==> s.clusters[n] < |s.entries|)
      && forall i :: 0 <= i < |order| ==> i in s.clusters.Values
  {
    BindIs(map[], order, 0);
    var s := Opened(cfg, order);
    forall i | 0 <= i < |order| ensures i in s.clusters.Values { assert s.clusters[order[i]] == i; }
  }

  lemma OpenedIsInitial(cfg: map<Name, Config>, order: seq<Name>)
    requires InitialOrder(cfg, order)
    ensures Opened(cfg, order) == Initial(cfg, order) && MapOk(Initial(cfg, order))
  {
    assert ToClose(EMPTY, cfg) == map[];
    assert MarkAll([], {}) + Open(cfg, order) == Open(cfg, order);
    Phase1MapOk(EMPTY, cfg, order);
  }

  class Pool {
    var clusters: map<Name, nat>
    var configs: map<Name, Config>
    var entries: seq<Entry>
    /** The clients: calls of `Get` under way or answered, and calls of `UpdateConfig`. */
    ghost var gets: seq<Get>
    ghost var updates: seq<Update>

    ghost function View(): State
      reads this
    {
      State(clusters, configs, entries, gets, updates)
    }

    constructor ()
      ensures View() == EMPTY
    {
      clusters, configs, entries := map[], map[], [];
      gets, updates := [], [];
    }

    // ---- Get and release ----

    method Lookup(cluster: Name) returns (found: Option<nat>)
      modifies this
      ensures found == if cluster in old(clusters) then Some(old(clusters)[cluster]) else None
      ensures View() == if cluster in old(clusters) then Next(old(View()), PoolModel.Lookup(cluster)) else old(View())
    {
      if cluster in clusters {
        found := Some(clusters[cluster]);
        gets := gets + [PoolModel.Get(cluster, clusters[cluster], Looked)];
      } else {
        found := None;
      }
    }

    method CheckClosing(e: nat, ghost k: nat) returns (closing: bool)
      requires IsGet(View(), k, Looked) && gets[k].entry == e
      modifies this
      ensures closing == old(entries[e]).closing
      ensures View() == Next(old(View()), Check(k))
    {
      closing := entries[e].closing;
      gets := gets[k := gets[k].(phase := if closing then Refused else Passed)];
    }

    method Increment(e: nat, ghost k: nat)
      requires IsGet(View(), k, Passed) && gets[k].entry == e
      modifies this
      ensures View() == Next(old(View()), Bump(k))
    {
      entries := entries[e := entries[e].(refCount := Wrap32(entries[e].refCount + 1))];
      gets := gets[k := gets[k].(phase := Holding)];
    }

    /** Answers with the database of the cluster, or None for an unknown or closing one. */
    method Get(cluster: Name) returns (db: Option<nat>)
      requires MapOk(View())
      modifies this
      ensures db.Some? <==> cluster in old(clusters) && !old(entries)[old(clusters)[cluster]].closing
      ensures db.Some? ==> db.value == old(clusters)[cluster]
      ensures clusters == old(clusters) && configs == old(configs) && updates == old(updates)
      ensures cluster in old(clusters) ==>
        gets == old(gets) + [PoolModel.Get(cluster, clusters[cluster], if db.Some? then Holding else Refused)]
      ensures cluster !in old(clusters) ==> gets == old(gets)
      ensures entries == if db.None? then old(entries) else
        old(entries)[db.value := old(entries)[db.value].(refCount := Wrap32(old(entries)[db.value].refCount + 1))]
    {
      ghost var k := |gets|;
      var found := Lookup(cluster);
      if found.None? { return None; }
      var closing := CheckClosing(found.value, k);
      if closing { return None; }
      Increment(found.value, k);
      return Some(found.value);
    }

    /** Decrements the count of the entry that wraps `db`, if it is still in the map, whether or not
        a handle is out. */
    method Release(db: nat)
      requires MapOk(View()) && db < |entries|
      modifies `entries
      ensures View() == if db in clusters.Values then AddRef(old(View()), db, -1) else old(View())
    {
      ghost var s := View();
      var todo := clusters.Keys;
      while todo != {}
        invariant todo <= clusters.Keys
        invariant entries ==
          if exists n :: n in clusters && n !in todo && clusters[n] == db then AddRef(s, db, -1).entries else s.entries
        decreases todo
      {
        var name :| name in todo;
        if clusters[name] == db {
          assert forall n :: n in clusters && n !in todo ==> clusters[n] != db;
          entries := entries[db := entries[db].(refCount := Wrap32(entries[db].refCount - 1))];
        }
        todo := todo - {name};
      }
    }

    /** A client gives back the handle that `Get` number `k` returned. */
    method GiveBack(db: nat, ghost k: nat)
      requires MapOk(View()) && IsGet(View(), k, Holding) && gets[k].entry == db
      modifies this
      ensures View() == Next(old(View()), PoolModel.Release(k))
    {
      Release(db);
      gets := gets[k := gets[k].(phase := Released)];
    }

    // ---- UpdateConfig ----

    /** Whether the cluster was removed, or one of the four fields of its identity changed. */
    method IsStale(name: Name, cfg: map<Name, Config>) returns (stale: bool)
      ensures stale == Stale(View(), cfg, name)
    {
      stale := name !in cfg;
      if !stale {
        var was := if name in configs then configs[name] else ZERO_CONFIG;
        var now := cfg[name];
        stale := was.host != now.host || was.port != now.port ||
                 was.username != now.username || was.password != now.password;
      }
    }

    /** Phase 1, first loop. */
    method MarkStale(cfg: map<Name, Config>) returns (toClose: map<Name, nat>)
      requires MapOk(View())
      modifies this
      ensures toClose == ToClose(old(View()), cfg)
      ensures forall n :: n in toClose ==> n in old(clusters) && toClose[n] == old(clusters)[n]
      ensures forall n :: n in old(clusters) ==>
        (n !in toClose <==>
           && n in cfg
           && var was, now := OldConfig(old(configs), n), cfg[n];
              was.host == now.host && was.port == now.port &&
              was.username == now.username && was.password == now.password)
      ensures View() == old(View()).(entries := MarkAll(old(entries), toClose.Values))
    {
      ghost var s := View();
      toClose := map[];
      MarkedNone(s, cfg);
      var todo := clusters.Keys;
      while todo != {}
        invariant todo <= clusters.Keys
        invariant View() == Marked(s, cfg, todo) && toClose == ToClose(s, cfg) - todo
        decreases todo
      {
        var name :| name in todo;
        var e := clusters[name];
        MarkedNext(s, cfg, todo, name);
        var stale := IsStale(name, cfg);
        if stale {
          entries := entries[e := entries[e].(closing := true)];
          toClose := toClose[name := e];
        }
        todo := todo - {name};
      }
      assert ToClose(s, cfg) - {} == ToClose(s, cfg);
    }

    /** Phase 1, second loop. */
    method AddNew(cfg: map<Name, Config>, reachable: set<Name>) returns (ghost added: seq<Name>)
      modifies this
      ensures Openable(old(View()), cfg, added)
      ensures forall n :: n in cfg && n !in old(clusters) && n in reachable ==> n in added
      ensures View() == old(View()).(
        clusters := Bind(old(clusters), added, |old(entries)|), entries := old(entries) + Open(cfg, added))
    {
      ghost var s := View();
      added := [];
      var todo := cfg.Keys;
      while todo != {}
        invariant todo <= cfg.Keys
        invariant Openable(s, cfg, added)
        invariant forall n :: n in added ==> n !in todo
        invariant forall n :: n in cfg && n !in todo && n !in s.clusters && n in reachable ==> n in added
        invariant View() == WithAdded(s, cfg, added)
        decreases todo
      {
        var name :| name in todo;
        BindHas(s.clusters, added, |s.entries|, name);
        if name !in clusters && name in reachable {
          AddedNext(s, cfg, added, name);
          OpenCluster(name, cfg[name]);
          added := added + [name];
        }
        todo := todo - {name};
      }
    }

    method OpenCluster(name: Name, c: Config)
      modifies this
      ensures View() == old(View()).(
        clusters := old(clusters)[name := |old(entries)|], entries := old(entries) + [Fresh(c)])
    {
      clusters := clusters[name := |entries|];
      entries := entries + [Fresh(c)];
    }

    /** Waits for the count to drop to zero while the budget lasts; nothing else runs meanwhile.
        `run` is the run that led here from `start`. */
    method WaitForRelease(e: nat, budget: nat, ghost u: nat, ghost start: State, ghost run: seq<Action>)
      returns (drained: bool, left: nat, ghost steps: seq<Action>)
      requires IsUpdate(View(), u, budget) && updates[u].stage.Waiting? && updates[u].stage.entry == e < |entries|
      requires Drained(start, run, View())
      modifies `updates
      ensures drained <==> entries[e].refCount == 0
      ensures left == if drained then budget else 0
      ensures Drained(start, steps, View())
      ensures updates ==
        old(updates)[u := Update(old(updates)[u].todo, Ready(old(updates)[u].stage.name, e, drained), left)]
    {
      ghost var s := View();
      ghost var upd := updates[u];
      left, steps := budget, run;
      while true
        invariant left <= budget && (entries[e].refCount == 0 ==> left == budget)
        invariant View() == s.(updates := s.updates[u := upd.(ticks := left)])
        invariant Drained(start, steps, View())
        decreases left
      {
        DrainsFurther(start, steps, View(), Observe(u));
        steps := steps + [Observe(u)];
        if entries[e].refCount == 0 {
          updates := updates[u := Update(upd.todo, Ready(upd.stage.name, e, true), left)];
          return true, left, steps;
        }
        updates := updates[u := Update(upd.todo, Busy(upd.stage.name, e), left)];
        if left == 0 {
          DrainsFurther(start, steps, View(), TimeOut(u));
          steps := steps + [TimeOut(u)];
          updates := updates[u := Update(upd.todo, Ready(upd.stage.name, e, false), left)];
          return false, left, steps;
        }
        DrainsFurther(start, steps, View(), Wait(u));
        steps := steps + [Wait(u)];
        left := left - 1;
        updates := updates[u := upd.(ticks := left)];
      }
    }

    method WaitCloseDelete(name: Name, e: nat, budget: nat, ghost u: nat, ghost start: State, ghost run: seq<Action>)
      returns (left: nat, ghost steps: seq<Action>)
      requires IsUpdate(View(), u, budget) && updates[u].stage == Waiting(name, e) && e < |entries|
      requires Drained(start, run, View())
      modifies `clusters, `entries, `updates
      ensures clusters == old(clusters) - {name}
      ensures entries == old(entries)[e := old(entries)[e].(closed := true)]
      ensures left <= budget
      ensures Drained(start, steps, View())
      ensures updates == old(updates)[u := Update(old(updates)[u].todo, Choosing, left)]
    {
      var drained;
      drained, left, steps := WaitForRelease(e, budget, u, start, run);
      DrainsFurther(start, steps, View(), CloseDb(u));
      entries := entries[e := entries[e].(closed := true)];
      updates := updates[u := updates[u].(stage := Closed(name, e))];
      steps := steps + [CloseDb(u)];
      DrainsFurther(start, steps, View(), Delete(u));
      clusters := clusters - {name};
      updates := updates[u := updates[u].(stage := Choosing)];
      steps := steps + [Delete(u)];
    }

    /** One round of phase 2, which began in `start` and has the entries of `todo` to close. */
    method DrainOne(toClose: map<Name, nat>, name: Name, budget: nat,
                    ghost todo: set<Name>, ghost u: nat, ghost start: State, ghost run: seq<Action>)
      returns (left: nat, ghost steps: seq<Action>)
      requires u < |start.updates| && todo <= toClose.Keys && name in todo && toClose[name] < |start.entries|
      requires View() == Midway(start, u, toClose, todo, budget) && Drained(start, run, View())
      modifies `clusters, `entries, `updates
      ensures left <= budget
      ensures View() == Midway(start, u, toClose, todo - {name}, left) && Drained(start, steps, View())
    {
      MidwayChooses(start, u, toClose, todo, name, budget);
      DrainsFurther(start, run, View(), Choose(u, name));
      updates := updates[u := Update(Rest(toClose, todo - {name}), Waiting(name, toClose[name]), budget)];
      left, steps := WaitCloseDelete(name, toClose[name], budget, u, start, run + [Choose(u, name)]);
      MidwayNext(start, u, toClose, todo, name, budget, left);
    }

    /** Phase 2: waits for, closes and deletes each marked entry. */
    method Drain(toClose: map<Name, nat>, ghost u: nat) returns (left: nat, ghost steps: seq<Action>)
      requires u < |updates| && updates[u] == Update(toClose, Choosing, BUDGET)
      requires forall n :: n in toClose ==> toClose[n] < |entries|
      modifies `clusters, `entries, `updates
      ensures left <= BUDGET
      ensures View() == old(View()).(
        clusters := old(clusters) - toClose.Keys, entries := CloseEntries(old(entries), toClose.Values),
        updates := old(updates)[u := Update(map[], Choosing, left)])
      ensures Drained(old(View()), steps, View())
    {
      ghost var s := View();
      left, steps := BUDGET, [];
      MidwayEnds(s, u, toClose);
      var todo := toClose.Keys;
      while todo != {}
        invariant todo <= toClose.Keys && left <= BUDGET
        invariant View() == Midway(s, u, toClose, todo, left)
        invariant Drained(s, steps, View())
        decreases todo
      {
        var name :| name in todo;
        left, steps := DrainOne(toClose, name, left, todo, u, s, steps);
        todo := todo - {name};
      }
    }

    /** Phase 1: one locked step. */
    method MarkAndAdd(cfg: map<Name, Config>, reachable: set<Name>)
      returns (toClose: map<Name, nat>, ghost added: seq<Name>)
      requires MapOk(View())
      modifies this
      ensures Openable(old(View()), cfg, added)
      ensures cfg.Keys <= reachable ==> AllConnect(old(View()), cfg, added)
      ensures toClose == ToClose(old(View()), cfg)
      ensures View() == Phase1(old(View()), cfg, added) == Next(old(View()), Begin(cfg, added))
    {
      toClose := MarkStale(cfg);
      added := AddNew(cfg, reachable);
      configs := cfg;
      updates := updates + [Update(toClose, Choosing, BUDGET)];
    }

    /** A whole, uninterrupted call: the stale entries are marked, closed and removed, the missing
        clusters that can be reached are opened, and the others stay as they are.  It is a run of
        the model: phase 1 and then `steps` of phase 2, which has nothing left to do at the end. */
    method UpdateConfig(cfg: map<Name, Config>, reachable: set<Name>)
      returns (ghost added: seq<Name>, ghost steps: seq<Action>)
      requires MapOk(View())
      modifies this
      ensures MapOk(View())
      ensures Openable(old(View()), cfg, added)
      ensures cfg.Keys <= reachable ==> AllConnect(old(View()), cfg, added)
      ensures configs == cfg && clusters == Settled(old(View()), cfg, added)
      ensures cfg.Keys <= reachable ==> clusters.Keys == cfg.Keys - Changed(old(View()), cfg)
      ensures entries == CloseEntries(Phase1(old(View()), cfg, added).entries, ToClose(old(View()), cfg).Values)
      ensures gets == old(gets) && |updates| == |old(updates)| + 1 && updates[..|old(updates)|] == old(updates)
      ensures Drained(Phase1(old(View()), cfg, added), steps, View()) && Finished(updates[|old(updates)|])
      ensures Quiet(old(View())) ==> Quiet(View())
      ensures Quiet(old(View())) ==> forall n :: n in old(clusters) ==>
        && n in old(configs)
        && ((n in clusters && clusters[n] == old(clusters)[n]) <==>
              && n in cfg
              && var was, now := old(configs)[n], cfg[n];
                 was.host == now.host && was.port == now.port &&
                 was.username == now.username && was.password == now.password)
        && (!(n in clusters && clusters[n] == old(clusters)[n]) ==> entries[old(clusters)[n]].closed)
    {
      ghost var s := View();
      var toClose;
      toClose, added := MarkAndAdd(cfg, reachable);
      Phase1MapOk(s, cfg, added);
      var left;
      left, steps := Drain(toClose, |s.updates|);
      if cfg.Keys <= reachable { SettledKeys(s, cfg, added); }
      if Quiet(s) {
        CallKeepsQuiet(s, cfg, added, steps, View());
        forall n | n in s.clusters
          ensures n in s.configs && (KeepsEntry(s, View(), n) <==> StillConfigured(s, cfg, n))
          ensures !KeepsEntry(s, View(), n) ==> entries[s.clusters[n]].closed
        {
          KeptExactlyWhen(s, cfg, added, View(), n);
        }
      }
    }

    /** `NewPool`: opens every cluster; if one cannot be reached, it closes those of `order`, which it
        had opened, and fails. */
    static method NewPool(cfg: map<Name, Config>, reachable: set<Name>)
      returns (p: Pool?, ghost order: seq<Name>, ghost dropped: seq<Entry>)
      ensures p != null <==> cfg.Keys <= reachable
      ensures p == null ==> |dropped| == |order| && forall i :: 0 <= i < |order| ==>
        order[i] in cfg && order[i] in reachable && dropped[i] == Fresh(cfg[order[i]]).(closed := true)
      ensures p != null ==> MapOk(p.View()) && Quiet(p.View())
      ensures p != null ==> fresh(p) && InitialOrder(cfg, order) && p.View() == Initial(cfg, order)
    {
      var pool := new Pool();
      pool.configs := cfg;
      order, dropped := [], [];
      var todo := cfg.Keys;
      while todo != {}
        invariant todo <= cfg.Keys && cfg.Keys - todo <= reachable
        invariant Openable(EMPTY, cfg, order)
        invariant forall n :: n in order <==> n in cfg && n !in todo
        invariant fresh(pool)
        invariant pool.View() == Opened(cfg, order)
        decreases todo
      {
        var name :| name in todo;
        if name !in reachable {
          OpenedAreMapped(cfg, order);
          pool.Close();
          return null, order, pool.entries;
        }
        OpenedNext(cfg, order, name);
        pool.OpenCluster(name, cfg[name]);
        order := order + [name];
        todo := todo - {name};
      }
      p := pool;
      OpenedIsInitial(cfg, order);
      InitialSerial(cfg, order);
    }

    /** Closes every database regardless of its count, without marking it. */
    method Close()
      requires forall n :: n in clusters ==> clusters[n] < |entries|
      modifies this
      ensures View() == Next(old(View()), CloseAll)
    {
      ghost var s := View();
      var todo := clusters.Keys;
      while todo != {}
        invariant todo <= clusters.Keys
        invariant View() == s.(entries := CloseEntries(s.entries, (s.clusters - todo).Values))
        decreases todo
      {
        var name :| name in todo;
        var e := clusters[name];
        TakeOne(s.clusters, todo, name);
        CloseOne(s.entries, s.clusters - todo, name, e);
        entries := entries[e := entries[e].(closed := true)];
        todo := todo - {name};
      }
      assert s.clusters - todo == s.clusters;
      clusters := map[];
    }
  }
}
