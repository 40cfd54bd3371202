/** The connection pool as a transition system: `Get` in three atomic steps, `release` and
    phase 1 of `UpdateConfig` in one each, phase 2 as separate observe, close and delete steps,
    any number of calls interleaved in any order. */
module PoolModel {
  type Name = string

  datatype Config = Config(
    host: string, port: int, username: string, password: string,
    maxOpenConns: int, maxIdleConns: int, connMaxLifetime: int)

  const ZERO_CONFIG := Config("", 0, "", "", 0, 0, 0)

  /** The fields whose change makes a connection stale. */
  predicate SameIdentity(a: Config, b: Config)
  {
    a.host == b.host && a.port == b.port && a.username == b.username && a.password == b.password
  }

  /** A managed database.  `openedWith` and `closed` describe the `sql.DB` it wraps. */
  datatype Entry = Entry(refCount: int, closing: bool, openedWith: Config, closed: bool)

  datatype Phase = Looked | Passed | Holding | Released | Refused

  /** A `Get` call that found an entry: the step it has reached and the handle it returned. */
  datatype Get = Get(name: Name, entry: nat, phase: Phase)

  datatype Stage =
    | Choosing
    | Waiting(name: Name, entry: nat)
    | Busy(name: Name, entry: nat)
    | Ready(name: Name, entry: nat, drained: bool)
    | Closed(name: Name, entry: nat)

  /** Phase 2 of an `UpdateConfig` call; time is counted in ticks of 50 milliseconds. */
  datatype Update = Update(todo: map<Name, nat>, stage: Stage, ticks: nat)

  /** Entries, gets and updates are never forgotten: an index is a pointer, and since every
      `sql.Open` returns a new `sql.DB`, an entry's index also names its database. */
  datatype State = State(
    clusters: map<Name, nat>,
    configs: map<Name, Config>,
    entries: seq<Entry>,
    gets: seq<Get>,
    updates: seq<Update>)

  const BUDGET: nat := 200

  /** `atomic.AddInt32`. */
  function Wrap32(x: int): int
  {
    (x + 0x8000_0000) % 0x1_0000_0000 - 0x8000_0000
  }

  datatype Action =
    | Lookup(name: Name)
    | Check(get: nat)
    | Bump(get: nat)
    | CheckAndBump(get: nat)
    | Release(get: nat)
    | Begin(cfg: map<Name, Config>, added: seq<Name>)
    | Choose(upd: nat, cluster: Name)
    | Observe(upd: nat)
    | Wait(upd: nat)
    | Pass(upd: nat)
    | TimeOut(upd: nat)
    | CloseDb(upd: nat)
    | Delete(upd: nat)
    | CloseAll

  // ---- Phase 1 ----

  function OldConfig(configs: map<Name, Config>, name: Name): Config
  {
    if name in configs then configs[name] else ZERO_CONFIG
  }

  predicate Stale(s: State, cfg: map<Name, Config>, name: Name)
  {
    name !in cfg || !SameIdentity(OldConfig(s.configs, name), cfg[name])
  }

  function ToClose(s: State, cfg: map<Name, Config>): map<Name, nat>
  {
    map name | name in s.clusters && Stale(s, cfg, name) :: s.clusters[name]
  }

  /** The new clusters whose connection succeeded, in the order they were opened. */
  predicate Openable(s: State, cfg: map<Name, Config>, added: seq<Name>)
  {
    && (forall i :: 0 <= i < |added| ==> added[i] in cfg && added[i] !in s.clusters)
    && (forall i, j :: 0 <= i < j < |added| ==> added[i] != added[j])
  }

  function Mark(e: Entry): Entry { e.(closing := true) }

  function Fresh(c: Config): Entry { Entry(0, false, c, false) }

  function MarkAll(entries: seq<Entry>, ids: set<nat>): (r: seq<Entry>)
    ensures |r| == |entries|
    ensures forall i :: 0 <= i < |r| ==> r[i] == if i in ids then Mark(entries[i]) else entries[i]
  {
    seq(|entries|, i requires 0 <= i < |entries| => if i in ids then Mark(entries[i]) else entries[i])
  }

  function Open(cfg: map<Name, Config>, added: seq<Name>): (r: seq<Entry>)
    requires forall i :: 0 <= i < |added| ==> added[i] in cfg
    ensures |r| == |added|
    ensures forall i :: 0 <= i < |r| ==> r[i] == Fresh(cfg[added[i]])
  {
    seq(|added|, i requires 0 <= i < |added| => Fresh(cfg[added[i]]))
  }

  /** The map with `added[i]` bound to entry `base + i`. */
  function Bind(clusters: map<Name, nat>, added: seq<Name>, base: nat): map<Name, nat>
    decreases |added|
  {
    if added == [] then clusters
    else Bind(clusters[added[0] := base], added[1..], base + 1)
  }

  lemma {:induction false} BindIs(clusters: map<Name, nat>, added: seq<Name>, base: nat)
    requires forall i, j :: 0 <= i < j < |added| ==> added[i] != added[j]
    ensures var m := Bind(clusters, added, base);
      && (forall n :: n in m <==> n in clusters || n in added)
      && (forall i :: 0 <= i < |added| ==> added[i] in m && m[added[i]] == base + i)
      && (forall n :: n in clusters && n !in added ==> m[n] == clusters[n])
    decreases |added|
  {
    if added != [] {
      BindIs(clusters[added[0] := base], added[1..], base + 1);
      var m := Bind(clusters, added, base);
      assert added == [added[0]] + added[1..];
      forall i | 0 <= i < |added| ensures added[i] in m && m[added[i]] == base + i {
        if i > 0 {
          assert added[i] == added[1..][i - 1];
        } else {
          assert added[0] !in added[1..];
        }
      }
    }
  }

  function Phase1(s: State, cfg: map<Name, Config>, added: seq<Name>): State
    requires Openable(s, cfg, added)
  {
    State(
      Bind(s.clusters, added, |s.entries|),
      cfg,
      MarkAll(s.entries, ToClose(s, cfg).Values) + Open(cfg, added),
      s.gets,
      s.updates + [Update(ToClose(s, cfg), Choosing, BUDGET)])
  }

  // ---- Steps ----

  predicate IsGet(s: State, k: nat, phase: Phase)
  {
    k < |s.gets| && s.gets[k].phase == phase && s.gets[k].entry < |s.entries|
  }

  predicate Enabled(s: State, a: Action)
  {
    match a
    case Lookup(name) => name in s.clusters
    case Check(k) => IsGet(s, k, Looked)
    case Bump(k) => IsGet(s, k, Passed)
    case CheckAndBump(k) => IsGet(s, k, Looked)
    case Release(k) => IsGet(s, k, Holding)
    case Begin(cfg, added) => Openable(s, cfg, added)
    case Choose(u, name) => u < |s.updates| && s.updates[u].stage.Choosing? && name in s.updates[u].todo
    case Observe(u) => u < |s.updates| && s.updates[u].stage.Waiting? && s.updates[u].stage.entry < |s.entries|
    case Wait(u) => u < |s.updates| && s.updates[u].stage.Busy? && s.updates[u].ticks > 0
    case Pass(u) => u < |s.updates| && s.updates[u].ticks > 0
    case TimeOut(u) => u < |s.updates| && s.updates[u].stage.Busy? && s.updates[u].ticks == 0
    case CloseDb(u) => u < |s.updates| && s.updates[u].stage.Ready? && s.updates[u].stage.entry < |s.entries|
    case Delete(u) => u < |s.updates| && s.updates[u].stage.Closed?
    case CloseAll => forall n :: n in s.clusters ==> s.clusters[n] < |s.entries|
  }

  function SetPhase(s: State, k: nat, phase: Phase): State
    requires k < |s.gets|
  {
    s.(gets := s.gets[k := s.gets[k].(phase := phase)])
  }

  function AddRef(s: State, e: nat, delta: int): State
    requires e < |s.entries|
  {
    s.(entries := s.entries[e := s.entries[e].(refCount := Wrap32(s.entries[e].refCount + delta))])
  }

  function SetUpdate(s: State, u: nat, upd: Update): State
    requires u < |s.updates|
  {
    s.(updates := s.updates[u := upd])
  }

  function CloseEntries(entries: seq<Entry>, ids: set<nat>): (r: seq<Entry>)
    ensures |r| == |entries|
    ensures forall i :: 0 <= i < |r| ==> r[i] == if i in ids then entries[i].(closed := true) else entries[i]
  {
    seq(|entries|, i requires 0 <= i < |entries| => if i in ids then entries[i].(closed := true) else entries[i])
  }

  function Next(s: State, a: Action): State
    requires Enabled(s, a)
  {
    match a
    case Lookup(name) => s.(gets := s.gets + [Get(name, s.clusters[name], Looked)])
    case Check(k) => SetPhase(s, k, if s.entries[s.gets[k].entry].closing then Refused else Passed)
    case Bump(k) => AddRef(SetPhase(s, k, Holding), s.gets[k].entry, 1)
    case CheckAndBump(k) =>
      if s.entries[s.gets[k].entry].closing then SetPhase(s, k, Refused)
      else AddRef(SetPhase(s, k, Holding), s.gets[k].entry, 1)
    case Release(k) =>
      if s.gets[k].entry in s.clusters.Values then AddRef(SetPhase(s, k, Released), s.gets[k].entry, -1)
      else SetPhase(s, k, Released)
    case Begin(cfg, added) => Phase1(s, cfg, added)
    case Choose(u, name) =>
      var upd := s.updates[u];
      SetUpdate(s, u, Update(upd.todo - {name}, Waiting(name, upd.todo[name]), upd.ticks))
    case Observe(u) =>
      var upd := s.updates[u];
      var st := upd.stage;
      SetUpdate(s, u, upd.(stage :=
        if s.entries[st.entry].refCount == 0 then Ready(st.name, st.entry, true) else Busy(st.name, st.entry)))
    case Wait(u) =>
      var upd := s.updates[u];
      SetUpdate(s, u, Update(upd.todo, Waiting(upd.stage.name, upd.stage.entry), upd.ticks - 1))
    case Pass(u) => SetUpdate(s, u, s.updates[u].(ticks := s.updates[u].ticks - 1))
    case TimeOut(u) =>
      var upd := s.updates[u];
      SetUpdate(s, u, upd.(stage := Ready(upd.stage.name, upd.stage.entry, false)))
    case CloseDb(u) =>
      var upd := s.updates[u];
      var e := upd.stage.entry;
      SetUpdate(s, u, upd.(stage := Closed(upd.stage.name, e))).(
        entries := s.entries[e := s.entries[e].(closed := true)])
    case Delete(u) =>
      var upd := s.updates[u];
      SetUpdate(s, u, upd.(stage := Choosing)).(clusters := s.clusters - {upd.stage.name})
    case CloseAll => s.(clusters := map[], entries := CloseEntries(s.entries, s.clusters.Values))
  }

  // ---- Runs ----

  predicate Runs(s: State, actions: seq<Action>)
    decreases |actions|
  {
    actions == [] || (Enabled(s, actions[0]) && Runs(Next(s, actions[0]), actions[1..]))
  }

  function Exec(s: State, actions: seq<Action>): State
    requires Runs(s, actions)
    decreases |actions|
  {
    if actions == [] then s else Exec(Next(s, actions[0]), actions[1..])
  }

  /** What `NewPool` builds: one open entry for every configured cluster. */
  const EMPTY: State := State(map[], map[], [], [], [])

  predicate InitialOrder(cfg: map<Name, Config>, order: seq<Name>)
  {
    Openable(EMPTY, cfg, order) && forall n :: n in cfg ==> n in order
  }

  function Initial(cfg: map<Name, Config>, order: seq<Name>): State
    requires InitialOrder(cfg, order)
  {
    Phase1(EMPTY, cfg, order).(updates := [])
  }

  predicate Step(s: State, a: Action, t: State)
  {
    Enabled(s, a) && Next(s, a) == t
  }

  /** A run given with the states it passes through. */
  predicate Passes(states: seq<State>, actions: seq<Action>)
  {
    && |states| == |actions| + 1
    && forall i :: 0 <= i < |actions| ==> Step(states[i], actions[i], states[i + 1])
  }

  lemma {:induction false} PassesRun(states: seq<State>, actions: seq<Action>)
    requires Passes(states, actions)
    ensures Runs(states[0], actions) && Exec(states[0], actions) == states[|actions|]
  {
    if actions != [] {
      assert Step(states[0], actions[0], states[1]);
      forall i | 0 <= i < |actions[1..]| ensures Step(states[1..][i], actions[1..][i], states[1..][i + 1]) {
        assert Step(states[i + 1], actions[i + 1], states[i + 2]);
      }
      PassesRun(states[1..], actions[1..]);
    }
  }

  lemma PassesAppend(p: seq<State>, a: seq<Action>, q: seq<State>, b: seq<Action>)
    requires Passes(p, a) && Passes(q, b) && p[|a|] == q[0]
    ensures Passes(p + q[1..], a + b)
  {
    var r := p + q[1..];
    forall i | 0 <= i < |a + b| ensures Step(r[i], (a + b)[i], r[i + 1]) {
      if i < |a| {
        assert Step(p[i], a[i], p[i + 1]);
      } else {
        assert Step(q[i - |a|], b[i - |a|], q[i - |a| + 1]);
      }
    }
  }

  predicate LeadsTo(s: State, actions: seq<Action>, t: State)
  {
    Runs(s, actions) && Exec(s, actions) == t
  }

  /** A run goes one step further. */
  lemma {:induction false} LeadsFurther(s: State, actions: seq<Action>, t: State, a: Action)
    requires LeadsTo(s, actions, t) && Enabled(t, a)
    ensures LeadsTo(s, actions + [a], Next(t, a))
    decreases |actions|
  {
    if actions == [] {
      assert [a][1..] == [] && actions + [a] == [a];
    } else {
      LeadsFurther(Next(s, actions[0]), actions[1..], t, a);
      assert (actions + [a])[1..] == actions[1..] + [a];
    }
  }

  predicate Possible(cfg: map<Name, Config>, order: seq<Name>, actions: seq<Action>)
  {
    InitialOrder(cfg, order) && Runs(Initial(cfg, order), actions)
  }

  /** The state a run from `NewPool` reaches. */
  function Reached(cfg: map<Name, Config>, order: seq<Name>, actions: seq<Action>): State
    requires Possible(cfg, order, actions)
  {
    Exec(Initial(cfg, order), actions)
  }
}
