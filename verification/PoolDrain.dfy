/** Graceful drain: who can still hold a database that phase 2 closed after seeing a count of
    zero, and how long phase 2 can take. */
module PoolDrain {
  import opened PoolModel
  import opened PoolSafety

  // ---- The closing flag admits no one ----

  predicate InUse(g: Get, e: nat)
  {
    g.entry == e && (g.phase.Passed? || g.phase.Holding?)
  }

  /** Every `Get` on `e` that is past its closing check in `t` was already past it in `s`. */
  predicate NoNewcomer(s: State, t: State, e: nat)
  {
    && |s.gets| <= |t.gets|
    && forall k :: 0 <= k < |t.gets| && InUse(t.gets[k], e) ==> k < |s.gets| && InUse(s.gets[k], e)
  }

  predicate IsClosing(s: State, e: nat)
  {
    e < |s.entries| && s.entries[e].closing
  }

  lemma NextAdmitsNoOne(s: State, a: Action, e: nat)
    requires Enabled(s, a) && IsClosing(s, e)
    ensures IsClosing(Next(s, a), e) && NoNewcomer(s, Next(s, a), e)
  {
  }

  lemma {:induction false} ClosingAdmitsNoOne(s: State, actions: seq<Action>, e: nat)
    requires Runs(s, actions) && IsClosing(s, e)
    ensures IsClosing(Exec(s, actions), e) && NoNewcomer(s, Exec(s, actions), e)
    decreases |actions|
  {
    if actions != [] {
      var t := Next(s, actions[0]);
      NextAdmitsNoOne(s, actions[0], e);
      ClosingAdmitsNoOne(t, actions[1..], e);
    }
  }

  // ---- A drained close ----

  /** Phase 2 of update `u` is about to find the count of `e` at zero. */
  predicate Drains(s: State, u: nat, e: nat)
  {
    && Enabled(s, Observe(u)) && s.updates[u].stage.entry == e
    && s.entries[e].refCount == 0 && Given(s, e) < 0x1_0000_0000
  }

  /** `Get` number `k` is between its closing check and its increment. */
  predicate InBetween(s: State, k: nat, e: nat)
  {
    k < |s.gets| && s.gets[k].entry == e && s.gets[k].phase.Passed?
  }

  /** `Get` number `k` holds the database of `e`, which is closed. */
  predicate HoldsClosed(s: State, k: nat, e: nat)
  {
    && k < |s.gets| && s.gets[k].entry == e && s.gets[k].phase.Holding?
    && e < |s.entries| && s.entries[e].closed
  }

  predicate TakesClosed(s: State, steps: seq<Action>, k: nat, e: nat)
  {
    Runs(s, steps) && HoldsClosed(Exec(s, steps), k, e)
  }

  /** The moment after `Observe` some `Get` can only be in between if it was so before. */
  lemma OnlyThoseInBetween(s: State, u: nat, e: nat, after: seq<Action>, k: nat)
    requires Inv(s) && CountInv(s) && Drains(s, u, e) && Runs(Next(s, Observe(u)), after)
    requires var t := Exec(Next(s, Observe(u)), after); k < |t.gets| && InUse(t.gets[k], e)
    ensures InBetween(s, k, e)
  {
    DrainingIsClosing(s, u, e);
    ClosingAdmitsNoOne(Next(s, Observe(u)), after, e);
    DrainedHoldsNone(s, u, e, k);
  }

  /** Whoever is in between takes the database after phase 2 has closed it. */
  lemma ThoseInBetweenTakeIt(s: State, u: nat, e: nat, k: nat)
    requires Inv(s) && Drains(s, u, e) && InBetween(s, k, e)
    ensures TakesClosed(Next(s, Observe(u)), [CloseDb(u), Bump(k)], k, e)
  {
    DrainingIsClosing(s, u, e);
    var s1 := Next(s, Observe(u));
    var s2 := Next(s1, CloseDb(u));
    var s3 := Next(s2, Bump(k));
    assert IsGet(s2, k, Passed);
    PassesRun([s1, s2, s3], [CloseDb(u), Bump(k)]);
  }

  /** If phase 2 finds the count of `e` at zero, then the `Get`s that can be handed the database
      although it is closed are exactly those between their closing check and their increment at
      that very moment; and in every interleaving from there on no other one ever uses it. */
  lemma GracefulDrain(cfg: map<Name, Config>, order: seq<Name>, before: seq<Action>, s: State, u: nat, e: nat, k: nat)
    requires Possible(cfg, order, before) && s == Reached(cfg, order, before) && Drains(s, u, e)
    ensures (exists after :: TakesClosed(Next(s, Observe(u)), after, k, e)) <==> InBetween(s, k, e)
    ensures forall after :: Runs(Next(s, Observe(u)), after) ==>
      var t := Exec(Next(s, Observe(u)), after); k < |t.gets| && InUse(t.gets[k], e) ==> InBetween(s, k, e)
  {
    ReachedInv(cfg, order, before);
    forall after | Runs(Next(s, Observe(u)), after)
      ensures var t := Exec(Next(s, Observe(u)), after); k < |t.gets| && InUse(t.gets[k], e) ==> InBetween(s, k, e)
    {
      var t := Exec(Next(s, Observe(u)), after);
      if k < |t.gets| && InUse(t.gets[k], e) { OnlyThoseInBetween(s, u, e, after, k); }
    }
    if InBetween(s, k, e) { ThoseInBetweenTakeIt(s, u, e, k); }
  }

  lemma DrainingIsClosing(s: State, u: nat, e: nat)
    requires Inv(s) && Drains(s, u, e)
    ensures e < |s.entries| && s.entries[e].closing
  {
    assert UpdateOk(s, s.updates[u]) && e in Pending(s.updates[u]);
  }

  lemma DrainedHoldsNone(s: State, u: nat, e: nat, k: nat)
    requires CountInv(s) && Drains(s, u, e) && k < |s.gets|
    ensures !(s.gets[k].entry == e && s.gets[k].phase.Holding?)
  {
    TalliesMean(s, e);
    CountZero(s.gets, e, {Holding}, k);
  }

  // ---- With an indivisible check and increment ----

  predicate Indivisible(actions: seq<Action>)
  {
    forall i :: 0 <= i < |actions| ==> !actions[i].Check?
  }

  predicate NonePassed(s: State)
  {
    forall k :: 0 <= k < |s.gets| ==> !s.gets[k].phase.Passed?
  }

  lemma {:induction false} IndivisibleKeepsNonePassed(s: State, actions: seq<Action>)
    requires Runs(s, actions) && Indivisible(actions) && NonePassed(s)
    ensures NonePassed(Exec(s, actions))
    decreases |actions|
  {
    if actions != [] {
      assert !actions[0].Check?;
      assert NonePassed(Next(s, actions[0]));
      IndivisibleKeepsNonePassed(Next(s, actions[0]), actions[1..]);
    }
  }

  /** If check and increment were one step, no one would ever hold a database that phase 2
      found drained. */
  lemma IndivisibleDrainIsSafe(cfg: map<Name, Config>, order: seq<Name>, before: seq<Action>, s: State,
                               u: nat, e: nat, k: nat)
    requires Possible(cfg, order, before) && s == Reached(cfg, order, before) && Indivisible(before)
    requires Drains(s, u, e)
    ensures forall after :: Runs(Next(s, Observe(u)), after) ==>
      var t := Exec(Next(s, Observe(u)), after); !(k < |t.gets| && InUse(t.gets[k], e))
  {
    IndivisibleKeepsNonePassed(Initial(cfg, order), before);
    GracefulDrain(cfg, order, before, s, u, e, k);
  }

  // ---- With the two steps apart the window is real ----

  function Race(c: Config): seq<Action>
  {
    [Lookup("a"), Check(0), Begin(map[], []), Choose(0, "a"), Observe(0), CloseDb(0), Bump(0)]
  }

  /** The states of that run: the pool "a" before phase 1, and phase 2 with `e`, `g` and `st`. */
  function RaceOpen(c: Config, gets: seq<Get>): State
  {
    State(map["a" := 0], map["a" := c], [Fresh(c)], gets, [])
  }

  function RaceClosing(e: Entry, phase: Phase, todo: map<Name, nat>, st: Stage): State
  {
    State(map["a" := 0], map[], [e], [Get("a", 0, phase)], [Update(todo, st, BUDGET)])
  }

  lemma RaceStart(c: Config)
    ensures InitialOrder(map["a" := c], ["a"])
    ensures Initial(map["a" := c], ["a"]) == RaceOpen(c, [])
  {
    var cfg: map<Name, Config> := map["a" := c];
    assert ToClose(EMPTY, cfg) == map[];
    assert Bind(map[], ["a"], 0) == map["a" := 0];
  }

  lemma RaceGet(c: Config)
    ensures Step(RaceOpen(c, []), Lookup("a"), RaceOpen(c, [Get("a", 0, Looked)]))
    ensures Step(RaceOpen(c, [Get("a", 0, Looked)]), Check(0), RaceOpen(c, [Get("a", 0, Passed)]))
  {
  }

  lemma RaceBegin(c: Config)
    ensures Step(RaceOpen(c, [Get("a", 0, Passed)]), Begin(map[], []),
                 RaceClosing(Mark(Fresh(c)), Passed, map["a" := 0], Choosing))
  {
    assert ToClose(RaceOpen(c, [Get("a", 0, Passed)]), map[]) == map["a" := 0];
    assert map["a" := 0].Values == {0} by { assert map["a" := 0]["a"] == 0; }
  }

  lemma RaceDrain(e: Entry)
    requires e.refCount == 0
    ensures Step(RaceClosing(e, Passed, map["a" := 0], Choosing), Choose(0, "a"),
                 RaceClosing(e, Passed, map[], Waiting("a", 0)))
    ensures Step(RaceClosing(e, Passed, map[], Waiting("a", 0)), Observe(0),
                 RaceClosing(e, Passed, map[], Ready("a", 0, true)))
  {
    assert map["a" := 0] - {"a"} == map[];
  }

  lemma RaceClose(e: Entry)
    requires e.refCount == 0
    ensures Step(RaceClosing(e, Passed, map[], Ready("a", 0, true)), CloseDb(0),
                 RaceClosing(e.(closed := true), Passed, map[], Closed("a", 0)))
    ensures Step(RaceClosing(e, Passed, map[], Closed("a", 0)), Bump(0),
                 RaceClosing(e.(refCount := 1), Holding, map[], Closed("a", 0)))
  {
  }

  /** This run hands out a database that phase 2 had found drained and closed. */
  lemma SplitCheckHandsOutClosedDb(c: Config)
    ensures Possible(map["a" := c], ["a"], Race(c))
    ensures var s := Reached(map["a" := c], ["a"], Race(c));
      && s.gets == [Get("a", 0, Holding)] && |s.entries| == 1 && s.entries[0].closed
      && s.updates == [Update(map[], Closed("a", 0), BUDGET)]
  {
    var e := Mark(Fresh(c));
    var last := RaceClosing(e.(closed := true, refCount := 1), Holding, map[], Closed("a", 0));
    RaceStart(c);
    RaceGet(c);
    RaceBegin(c);
    RaceDrain(e);
    RaceClose(e);
    RaceClose(e.(closed := true));
    PassesRun([
      RaceOpen(c, []), RaceOpen(c, [Get("a", 0, Looked)]), RaceOpen(c, [Get("a", 0, Passed)]),
      RaceClosing(e, Passed, map["a" := 0], Choosing), RaceClosing(e, Passed, map[], Waiting("a", 0)),
      RaceClosing(e, Passed, map[], Ready("a", 0, true)),
      RaceClosing(e.(closed := true), Passed, map[], Closed("a", 0)), last], Race(c));
  }

  // ---- The shared waiting budget ----

  predicate Mine(a: Action, u: nat)
  {
    OfUpdate(a) && a.upd == u
  }

  function Own(actions: seq<Action>, u: nat): nat
  {
    if actions == [] then 0 else (if Mine(actions[0], u) then 1 else 0) + Own(actions[1..], u)
  }

  function Waits(actions: seq<Action>, u: nat): nat
  {
    if actions == [] then 0 else (if actions[0] == Wait(u) then 1 else 0) + Waits(actions[1..], u)
  }

  function StageRank(st: Stage): nat
  {
    match st
    case Choosing => 0
    case Waiting(_, _) => 4
    case Busy(_, _) => 3
    case Ready(_, _, _) => 2
    case Closed(_, _) => 1
  }

  /** Steps phase 2 of `u` can still take: two for every tick, five for every cluster. */
  function Rank(u: Update): nat
  {
    2 * u.ticks + 5 * |u.todo| + StageRank(u.stage)
  }

  predicate Finished(u: Update)
  {
    u.stage.Choosing? && u.todo == map[]
  }

  lemma OwnStepLowersRank(s: State, a: Action, u: nat)
    requires Enabled(s, a) && Mine(a, u)
    ensures u < |s.updates| && |Next(s, a).updates| == |s.updates|
    ensures Rank(Next(s, a).updates[u]) < Rank(s.updates[u])
    ensures Next(s, a).updates[u].ticks + (if a.Wait? then 1 else 0) <= s.updates[u].ticks
  {
    if a.Choose? {
      var todo := s.updates[u].todo;
      assert (todo - {a.cluster}).Keys == todo.Keys - {a.cluster};
    }
  }

  lemma OtherStepKeepsUpdate(s: State, a: Action, u: nat)
    requires Enabled(s, a) && !Mine(a, u) && u < |s.updates|
    ensures u < |Next(s, a).updates| && Next(s, a).updates[u] == s.updates[u]
  {
  }

  /** However the other calls are interleaved and however many clusters are busy, phase 2 sleeps
      at most as many ticks as its one shared budget holds, and takes a bounded number of steps. */
  lemma {:induction false} DrainIsBounded(s: State, actions: seq<Action>, u: nat)
    requires Runs(s, actions) && u < |s.updates|
    ensures u < |Exec(s, actions).updates|
    ensures Waits(actions, u) + Exec(s, actions).updates[u].ticks <= s.updates[u].ticks
    ensures Own(actions, u) + Rank(Exec(s, actions).updates[u]) <= Rank(s.updates[u])
    decreases |actions|
  {
    if actions != [] {
      var t := Next(s, actions[0]);
      if Mine(actions[0], u) {
        OwnStepLowersRank(s, actions[0], u);
      } else {
        OtherStepKeepsUpdate(s, actions[0], u);
      }
      DrainIsBounded(t, actions[1..], u);
    }
  }

  /** A call of `UpdateConfig` that marked n entries waits at most 200 ticks in all and takes at
      most 400 + 5n steps after phase 1, whatever runs beside it. */
  lemma UpdateWaitsAtMost200Ticks(s: State, cfg: map<Name, Config>, added: seq<Name>, actions: seq<Action>)
    requires Openable(s, cfg, added) && Runs(Phase1(s, cfg, added), actions)
    ensures Waits(actions, |s.updates|) <= 200
    ensures Own(actions, |s.updates|) <= 400 + 5 * |ToClose(s, cfg)|
  {
    var p := Phase1(s, cfg, added);
    assert p.updates[|s.updates|] == Update(ToClose(s, cfg), Choosing, BUDGET);
    DrainIsBounded(p, actions, |s.updates|);
  }

  /** Ticks of its clock that pass in a run. */
  function Spent(actions: seq<Action>, u: nat): nat
  {
    if actions == [] then 0
    else (if actions[0] == Wait(u) || actions[0] == Pass(u) then 1 else 0) + Spent(actions[1..], u)
  }

  lemma OwnStepSpends(s: State, a: Action, u: nat)
    requires Enabled(s, a) && Mine(a, u)
    ensures u < |s.updates| && u < |Next(s, a).updates|
    ensures Next(s, a).updates[u].ticks + Spent([a], u) == s.updates[u].ticks
  {
    assert [a][1..] == [];
  }

  lemma {:induction false} SpentIsGone(s: State, actions: seq<Action>, u: nat)
    requires Runs(s, actions) && u < |s.updates|
    ensures u < |Exec(s, actions).updates|
    ensures Spent(actions, u) + Exec(s, actions).updates[u].ticks == s.updates[u].ticks
    decreases |actions|
  {
    if actions != [] {
      var t := Next(s, actions[0]);
      if Mine(actions[0], u) {
        OwnStepSpends(s, actions[0], u);
      } else {
        OtherStepKeepsUpdate(s, actions[0], u);
      }
      SpentIsGone(t, actions[1..], u);
    }
  }

  /** An entry that stays busy is not given up before 200 ticks have passed since phase 1. */
  lemma NoTimeOutBefore200Ticks(s: State, cfg: map<Name, Config>, added: seq<Name>, actions: seq<Action>)
    requires Openable(s, cfg, added) && Runs(Phase1(s, cfg, added), actions)
    requires Enabled(Exec(Phase1(s, cfg, added), actions), TimeOut(|s.updates|))
    ensures Spent(actions, |s.updates|) == 200
  {
    SpentIsGone(Phase1(s, cfg, added), actions, |s.updates|);
  }

  /** Until it has finished, phase 2 has a step of its own to take, whatever the others do. */
  lemma UpdateCanMove(s: State, u: nat)
    requires Inv(s) && u < |s.updates|
    ensures Finished(s.updates[u]) || exists a :: Mine(a, u) && Enabled(s, a)
  {
    var upd := s.updates[u];
    assert UpdateOk(s, upd);
    match upd.stage
    case Choosing =>
      if n :| n in upd.todo {
        assert Mine(Choose(u, n), u) && Enabled(s, Choose(u, n));
      }
    case Waiting(_, e) =>
      assert e in Pending(upd);
      assert Mine(Observe(u), u) && Enabled(s, Observe(u));
    case Busy(_, _) =>
      var a := if upd.ticks > 0 then Wait(u) else TimeOut(u);
      assert Mine(a, u) && Enabled(s, a);
    case Ready(_, e, _) =>
      assert e in Pending(upd);
      assert Mine(CloseDb(u), u) && Enabled(s, CloseDb(u));
    case Closed(_, _) =>
      assert Mine(Delete(u), u) && Enabled(s, Delete(u));
  }
}
