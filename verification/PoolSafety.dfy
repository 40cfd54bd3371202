/** What every step of the pool keeps, whatever the interleaving. */
module PoolSafety {
  import opened PoolModel

  // ---- Counting handles ----

  predicate Counts(g: Get, e: nat, phases: set<Phase>)
  {
    g.entry == e && g.phase in phases
  }

  function Count(gets: seq<Get>, e: nat, phases: set<Phase>): (n: nat)
    ensures n <= |gets|
  {
    if gets == [] then 0
    else Count(gets[..|gets| - 1], e, phases) + if Counts(gets[|gets| - 1], e, phases) then 1 else 0
  }

  /** Handles out: successful `Get`s not yet released. */
  function Held(s: State, e: nat): nat { Count(s.gets, e, {Holding}) }

  /** Handles ever given out. */
  function Given(s: State, e: nat): nat { Count(s.gets, e, {Holding, Released}) }

  lemma CountAppend(gets: seq<Get>, g: Get, e: nat, phases: set<Phase>)
    ensures Count(gets + [g], e, phases) == Count(gets, e, phases) + if Counts(g, e, phases) then 1 else 0
  {
    assert (gets + [g])[..|gets|] == gets;
  }

  lemma {:induction false} CountUpdate(gets: seq<Get>, k: nat, g: Get, e: nat, phases: set<Phase>)
    requires k < |gets|
    ensures Count(gets[k := g], e, phases) == Count(gets, e, phases)
            - (if Counts(gets[k], e, phases) then 1 else 0) + (if Counts(g, e, phases) then 1 else 0)
  {
    var n := |gets| - 1;
    if k < n {
      CountUpdate(gets[..n], k, g, e, phases);
      assert gets[k := g][..n] == gets[..n][k := g];
    } else {
      assert gets[k := g][..n] == gets[..n];
    }
  }

  lemma {:induction false} CountZero(gets: seq<Get>, e: nat, phases: set<Phase>, k: nat)
    requires k < |gets| && Count(gets, e, phases) == 0
    ensures !Counts(gets[k], e, phases)
  {
    var n := |gets| - 1;
    if k < n { CountZero(gets[..n], e, phases, k); }
  }

  lemma {:induction false} CountUnused(gets: seq<Get>, e: nat, phases: set<Phase>)
    requires forall k :: 0 <= k < |gets| ==> gets[k].entry != e
    ensures Count(gets, e, phases) == 0
  {
    if gets != [] { CountUnused(gets[..|gets| - 1], e, phases); }
  }

  // ---- Pointers are in range, names and entries correspond, marked entries are marked ----

  function StageEntries(st: Stage): set<nat>
  {
    if st.Choosing? then {} else {st.entry}
  }

  /** The entries an `UpdateConfig` call still has to close. */
  function Pending(u: Update): set<nat> { u.todo.Values + StageEntries(u.stage) }

  predicate MapOk(s: State)
  {
    && (forall n :: n in s.clusters ==> s.clusters[n] < |s.entries|)
    && (forall n, m :: n in s.clusters && m in s.clusters && n != m ==> s.clusters[n] != s.clusters[m])
  }

  predicate GetOk(s: State, g: Get)
  {
    && g.entry < |s.entries|
    && (forall n :: n in s.clusters && s.clusters[n] == g.entry ==> n == g.name)
  }

  predicate UpdateOk(s: State, u: Update)
  {
    forall e :: e in Pending(u) ==> e < |s.entries| && s.entries[e].closing
  }

  /** A mapped entry that is not closing is configured, under the identity it was opened with. */
  predicate IdentityOk(s: State)
  {
    forall n :: n in s.clusters && s.clusters[n] < |s.entries| && !s.entries[s.clusters[n]].closing ==>
      n in s.configs && SameIdentity(s.entries[s.clusters[n]].openedWith, s.configs[n])
  }

  predicate Inv(s: State)
  {
    && MapOk(s)
    && (forall k :: 0 <= k < |s.gets| ==> GetOk(s, s.gets[k]))
    && (forall u :: 0 <= u < |s.updates| ==> UpdateOk(s, s.updates[u]))
    && IdentityOk(s)
  }

  /** Where a name of the new map points: to its old entry, or to a fresh one. */
  lemma Phase1Binds(s: State, cfg: map<Name, Config>, added: seq<Name>, n: Name)
    requires Openable(s, cfg, added) && n in Phase1(s, cfg, added).clusters
    ensures var t := Phase1(s, cfg, added);
      if n in s.clusters then t.clusters[n] == s.clusters[n]
      else exists i {:trigger added[i]} ::
        0 <= i < |added| && added[i] == n && n in cfg && t.clusters[n] == |s.entries| + i
  {
    BindIs(s.clusters, added, |s.entries|);
    if n !in s.clusters {
      assert n in added;
    }
  }

  lemma Phase1MapOk(s: State, cfg: map<Name, Config>, added: seq<Name>)
    requires MapOk(s) && Openable(s, cfg, added)
    ensures MapOk(Phase1(s, cfg, added))
  {
    var t := Phase1(s, cfg, added);
    forall n | n in t.clusters ensures t.clusters[n] < |t.entries| {
      Phase1Binds(s, cfg, added, n);
    }
    forall n, k | n in t.clusters && k in t.clusters && n != k ensures t.clusters[n] != t.clusters[k] {
      Phase1Binds(s, cfg, added, n);
      Phase1Binds(s, cfg, added, k);
    }
  }

  lemma StaleIsMarked(s: State, cfg: map<Name, Config>, n: Name)
    requires n in s.clusters
    ensures Stale(s, cfg, n) ==> s.clusters[n] in ToClose(s, cfg).Values
  {
    if Stale(s, cfg, n) { assert ToClose(s, cfg)[n] == s.clusters[n]; }
  }

  lemma Phase1IdentityOk(s: State, cfg: map<Name, Config>, added: seq<Name>)
    requires Inv(s) && Openable(s, cfg, added)
    ensures IdentityOk(Phase1(s, cfg, added))
  {
    var t := Phase1(s, cfg, added);
    forall n | n in t.clusters && t.clusters[n] < |t.entries| && !t.entries[t.clusters[n]].closing
      ensures n in cfg && SameIdentity(t.entries[t.clusters[n]].openedWith, cfg[n])
    {
      Phase1Binds(s, cfg, added, n);
      if n in s.clusters {
        StaleIsMarked(s, cfg, n);
        assert !Stale(s, cfg, n);
      }
    }
  }

  lemma Phase1KeepsInv(s: State, cfg: map<Name, Config>, added: seq<Name>)
    requires Inv(s) && Openable(s, cfg, added)
    ensures Inv(Phase1(s, cfg, added))
  {
    var t := Phase1(s, cfg, added);
    Phase1MapOk(s, cfg, added);
    Phase1IdentityOk(s, cfg, added);
    forall u | 0 <= u < |t.updates| ensures UpdateOk(t, t.updates[u]) {
      if u < |s.updates| { assert UpdateOk(s, s.updates[u]); }
    }
    forall k | 0 <= k < |t.gets| ensures GetOk(t, t.gets[k]) {
      assert GetOk(s, s.gets[k]);
      forall n | n in t.clusters && t.clusters[n] == t.gets[k].entry ensures n == t.gets[k].name {
        Phase1Binds(s, cfg, added, n);
      }
    }
  }

  /** `t` is `s` with some clusters, gets and pending closes further along, and no other change
      that `Inv` can see. */
  predicate Advances(s: State, t: State)
  {
    && (forall n :: n in t.clusters ==> n in s.clusters && t.clusters[n] == s.clusters[n])
    && t.configs == s.configs
    && |t.entries| == |s.entries|
    && (forall e :: 0 <= e < |s.entries| ==>
          t.entries[e].closing == s.entries[e].closing && t.entries[e].openedWith == s.entries[e].openedWith)
    && |t.gets| >= |s.gets|
    && (forall k :: 0 <= k < |s.gets| ==> t.gets[k].name == s.gets[k].name && t.gets[k].entry == s.gets[k].entry)
    && (forall k :: |s.gets| <= k < |t.gets| ==>
          t.gets[k].name in s.clusters && s.clusters[t.gets[k].name] == t.gets[k].entry)
    && |t.updates| == |s.updates|
    && (forall u :: 0 <= u < |s.updates| ==> Pending(t.updates[u]) <= Pending(s.updates[u]))
  }

  lemma AdvancingKeepsInv(s: State, t: State)
    requires Inv(s) && Advances(s, t)
    ensures Inv(t)
  {
    forall k | 0 <= k < |t.gets| ensures GetOk(t, t.gets[k]) {
      if k < |s.gets| { assert GetOk(s, s.gets[k]); }
    }
    forall u | 0 <= u < |t.updates| ensures UpdateOk(t, t.updates[u]) {
      assert UpdateOk(s, s.updates[u]);
    }
  }

  lemma ChooseShrinks(u: Update, name: Name)
    requires u.stage.Choosing? && name in u.todo
    ensures Pending(Update(u.todo - {name}, Waiting(name, u.todo[name]), u.ticks)) <= Pending(u)
  {
    forall e | e in (u.todo - {name}).Values ensures e in u.todo.Values {
      var n :| n in u.todo - {name} && (u.todo - {name})[n] == e;
      assert u.todo[n] == e;
    }
    assert u.todo[name] in u.todo.Values;
  }

  predicate OfUpdate(a: Action)
  {
    a.Choose? || a.Observe? || a.Wait? || a.Pass? || a.TimeOut? || a.CloseDb? || a.Delete?
  }

  lemma UpdateStepAdvances(s: State, a: Action)
    requires Enabled(s, a) && OfUpdate(a)
    ensures Advances(s, Next(s, a))
  {
    if a.Choose? { ChooseShrinks(s.updates[a.upd], a.cluster); }
  }

  lemma OtherStepAdvances(s: State, a: Action)
    requires Enabled(s, a) && !OfUpdate(a) && !a.Begin?
    ensures Advances(s, Next(s, a))
  {
  }

  lemma NextKeepsInv(s: State, a: Action)
    requires Inv(s) && Enabled(s, a)
    ensures Inv(Next(s, a))
  {
    if a.Begin? {
      Phase1KeepsInv(s, a.cfg, a.added);
    } else {
      if OfUpdate(a) { UpdateStepAdvances(s, a); } else { OtherStepAdvances(s, a); }
      AdvancingKeepsInv(s, Next(s, a));
    }
  }

  lemma InitialInv(cfg: map<Name, Config>, order: seq<Name>)
    requires InitialOrder(cfg, order)
    ensures Inv(Initial(cfg, order))
  {
    Phase1KeepsInv(EMPTY, cfg, order);
  }

  lemma {:induction false} RunKeepsInv(s: State, actions: seq<Action>)
    requires Inv(s) && Runs(s, actions)
    ensures Inv(Exec(s, actions))
    decreases |actions|
  {
    if actions != [] {
      NextKeepsInv(s, actions[0]);
      RunKeepsInv(Next(s, actions[0]), actions[1..]);
    }
  }

  /** In every reachable state, an entry under a name that is not closing is configured, under the
      host, port, user and password it was opened with. */
  lemma OpenEntriesAreCurrent(cfg: map<Name, Config>, order: seq<Name>, actions: seq<Action>, name: Name)
    requires Possible(cfg, order, actions) && name in Reached(cfg, order, actions).clusters
    ensures var s := Reached(cfg, order, actions);
      && s.clusters[name] < |s.entries|
      && (!s.entries[s.clusters[name]].closing ==>
            && name in s.configs
            && var was, now := s.entries[s.clusters[name]].openedWith, s.configs[name];
               was.host == now.host && was.port == now.port &&
               was.username == now.username && was.password == now.password)
  {
    InitialInv(cfg, order);
    RunKeepsInv(Initial(cfg, order), actions);
  }

  // ---- Reference counts ----

  /** The count of `e` is `x` modulo 2^32, between the handles out and the handles ever given. */
  predicate Tallies(s: State, e: nat, x: int)
    requires e < |s.entries|
  {
    && Held(s, e) <= x <= Given(s, e)
    && s.entries[e].refCount == Wrap32(x)
    && (e in s.clusters.Values ==> x == Held(s, e))
  }

  ghost predicate RefOk(s: State, e: nat)
    requires e < |s.entries|
  {
    exists x :: Tallies(s, e, x)
  }

  lemma WrapAdd(x: int, delta: int)
    ensures Wrap32(Wrap32(x) + delta) == Wrap32(x + delta)
  {
    var q := (x + 0x8000_0000) / 0x1_0000_0000;
    assert Wrap32(x) == x - q * 0x1_0000_0000;
    ModShift(x + delta + 0x8000_0000, -q);
  }

  lemma ModShift(y: int, q: int)
    ensures (y + q * 0x1_0000_0000) % 0x1_0000_0000 == y % 0x1_0000_0000
  {
  }

  ghost predicate CountInv(s: State)
  {
    forall e :: 0 <= e < |s.entries| ==> RefOk(s, e)
  }

  lemma SetPhaseCounts(s: State, k: nat, phase: Phase, e: nat)
    requires k < |s.gets|
    ensures var t := SetPhase(s, k, phase); var was := s.gets[k].phase; var mine := s.gets[k].entry == e;
      && Held(t, e) == Held(s, e) - (if mine && was.Holding? then 1 else 0) + (if mine && phase.Holding? then 1 else 0)
      && Given(t, e) == Given(s, e) - (if mine && (was.Holding? || was.Released?) then 1 else 0)
                        + (if mine && (phase.Holding? || phase.Released?) then 1 else 0)
  {
    var g := s.gets[k].(phase := phase);
    CountUpdate(s.gets, k, g, e, {Holding});
    CountUpdate(s.gets, k, g, e, {Holding, Released});
  }

  /** Steps of a `Get` or a release on entry `e`, from phase to phase. */
  lemma CheckKeepsCount(s: State, k: nat, phase: Phase, e: nat)
    requires IsGet(s, k, Looked) && (phase.Passed? || phase.Refused?)
    requires e < |s.entries| && RefOk(s, e)
    ensures RefOk(SetPhase(s, k, phase), e)
  {
    SetPhaseCounts(s, k, phase, e);
    var x :| Tallies(s, e, x);
    assert Tallies(SetPhase(s, k, phase), e, x);
  }

  lemma BumpKeepsCount(s: State, k: nat, e: nat)
    requires IsGet(s, k, Passed) || IsGet(s, k, Looked)
    requires e < |s.entries| && RefOk(s, e)
    ensures RefOk(AddRef(SetPhase(s, k, Holding), s.gets[k].entry, 1), e)
  {
    SetPhaseCounts(s, k, Holding, e);
    var x :| Tallies(s, e, x);
    WrapAdd(x, 1);
    assert Tallies(AddRef(SetPhase(s, k, Holding), s.gets[k].entry, 1), e, if s.gets[k].entry == e then x + 1 else x);
  }

  lemma ReleaseKeepsCount(s: State, k: nat, e: nat)
    requires IsGet(s, k, Holding)
    requires e < |s.entries| && RefOk(s, e)
    ensures RefOk(Next(s, Release(k)), e)
  {
    SetPhaseCounts(s, k, Released, e);
    var x :| Tallies(s, e, x);
    WrapAdd(x, -1);
    var mapped := e in s.clusters.Values;
    assert Tallies(Next(s, Release(k)), e, if s.gets[k].entry == e && mapped then x - 1 else x);
  }

  lemma GetStepKeepsCount(s: State, a: Action, e: nat)
    requires Enabled(s, a) && (a.Check? || a.Bump? || a.CheckAndBump? || a.Release?)
    requires e < |s.entries| && RefOk(s, e)
    ensures |Next(s, a).entries| == |s.entries| && RefOk(Next(s, a), e)
  {
    var closing := s.entries[s.gets[a.get].entry].closing;
    if a.Release? {
      ReleaseKeepsCount(s, a.get, e);
    } else if a.Bump? || (a.CheckAndBump? && !closing) {
      BumpKeepsCount(s, a.get, e);
    } else {
      CheckKeepsCount(s, a.get, if closing then Refused else Passed, e);
    }
  }

  lemma BeginKeepsCount(s: State, cfg: map<Name, Config>, added: seq<Name>, e: nat)
    requires Inv(s) && Openable(s, cfg, added) && e < |Phase1(s, cfg, added).entries|
    requires e < |s.entries| ==> RefOk(s, e)
    ensures RefOk(Phase1(s, cfg, added), e)
  {
    var t := Phase1(s, cfg, added);
    if e < |s.entries| {
      if e in t.clusters.Values {
        var n :| n in t.clusters && t.clusters[n] == e;
        Phase1Binds(s, cfg, added, n);
        assert s.clusters[n] in s.clusters.Values;
      }
      var x :| Tallies(s, e, x);
      assert Tallies(t, e, x);
    } else {
      forall k | 0 <= k < |s.gets| ensures s.gets[k].entry != e { assert GetOk(s, s.gets[k]); }
      CountUnused(s.gets, e, {Holding});
      CountUnused(s.gets, e, {Holding, Released});
      assert Tallies(t, e, 0);
    }
  }

  lemma OtherStepKeepsCount(s: State, a: Action, e: nat)
    requires Enabled(s, a) && !(a.Check? || a.Bump? || a.CheckAndBump? || a.Release? || a.Begin?)
    requires e < |s.entries| && RefOk(s, e)
    ensures |Next(s, a).entries| == |s.entries| && RefOk(Next(s, a), e)
  {
    var t := Next(s, a);
    if a.Lookup? {
      CountAppend(s.gets, Get(a.name, s.clusters[a.name], Looked), e, {Holding});
      CountAppend(s.gets, Get(a.name, s.clusters[a.name], Looked), e, {Holding, Released});
    }
    if e in t.clusters.Values {
      var n :| n in t.clusters && t.clusters[n] == e;
      assert s.clusters[n] in s.clusters.Values;
    }
    var x :| Tallies(s, e, x);
    assert Tallies(t, e, x);
  }

  lemma NextKeepsCount(s: State, a: Action)
    requires Inv(s) && CountInv(s) && Enabled(s, a)
    ensures CountInv(Next(s, a))
  {
    var t := Next(s, a);
    forall e | 0 <= e < |t.entries| ensures RefOk(t, e) {
      if a.Begin? {
        BeginKeepsCount(s, a.cfg, a.added, e);
      } else if a.Check? || a.Bump? || a.CheckAndBump? || a.Release? {
        GetStepKeepsCount(s, a, e);
      } else {
        OtherStepKeepsCount(s, a, e);
      }
    }
  }

  lemma {:induction false} RunKeepsCount(s: State, actions: seq<Action>)
    requires Inv(s) && CountInv(s) && Runs(s, actions)
    ensures Inv(Exec(s, actions)) && CountInv(Exec(s, actions))
    decreases |actions|
  {
    if actions != [] {
      NextKeepsInv(s, actions[0]);
      NextKeepsCount(s, actions[0]);
      RunKeepsCount(Next(s, actions[0]), actions[1..]);
    }
  }

  lemma ReachedInv(cfg: map<Name, Config>, order: seq<Name>, actions: seq<Action>)
    requires Possible(cfg, order, actions)
    ensures Inv(Reached(cfg, order, actions)) && CountInv(Reached(cfg, order, actions))
  {
    var s := Initial(cfg, order);
    InitialInv(cfg, order);
    forall e | 0 <= e < |s.entries| ensures RefOk(s, e) {
      assert Tallies(s, e, 0);
    }
    RunKeepsCount(s, actions);
  }

  lemma TalliesMean(s: State, e: nat)
    requires e < |s.entries| && RefOk(s, e)
    ensures e in s.clusters.Values ==> s.entries[e].refCount == Wrap32(Held(s, e))
    ensures e in s.clusters.Values ==> (s.entries[e].refCount == Held(s, e) <==> Held(s, e) < 0x8000_0000)
    ensures Given(s, e) < 0x8000_0000 ==> Held(s, e) <= s.entries[e].refCount <= Given(s, e)
    ensures s.entries[e].refCount == 0 && Given(s, e) < 0x1_0000_0000 ==> Held(s, e) == 0
  {
    var x :| Tallies(s, e, x);
  }

  /** In every reachable state the count of a mapped entry is the number of handles out, modulo
      2^32: it is that number exactly when fewer than 2^31 are out.  The count of any entry is at
      least the number of handles out as long as fewer than 2^31 were ever given. */
  lemma CountsNeverUndercount(cfg: map<Name, Config>, order: seq<Name>, actions: seq<Action>, e: nat)
    requires Possible(cfg, order, actions) && e < |Reached(cfg, order, actions).entries|
    ensures var s := Reached(cfg, order, actions);
      && (e in s.clusters.Values ==> s.entries[e].refCount == Wrap32(Held(s, e)))
      && (e in s.clusters.Values ==> (s.entries[e].refCount == Held(s, e) <==> Held(s, e) < 0x8000_0000))
      && (Given(s, e) < 0x8000_0000 ==> Held(s, e) <= s.entries[e].refCount <= Given(s, e))
  {
    ReachedInv(cfg, order, actions);
    TalliesMean(Reached(cfg, order, actions), e);
  }
}
