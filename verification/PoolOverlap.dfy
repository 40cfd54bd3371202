/** Where the pool's promises end: `UpdateConfig` deletes by name, so a call that outlives
    another can remove an entry it never marked.  One run that leaks; when there is none is the
    subject of `PoolCover`. */
module PoolOverlap {
  import opened PoolModel
  import PoolCover

  // ---- Two calls mark the same entry; a third re-adds its name ----

  const NONE: map<Name, Config> := map[]
  const GONE: map<Name, nat> := map[]
  const DONE: Update := Update(GONE, Choosing, BUDGET)

  function Only(c: Config): map<Name, Config> { map["a" := c] }

  function At(e: nat): map<Name, nat> { map["a" := e] }

  function Dropped(c: Config, closed: bool): Entry { Entry(0, true, c, closed) }

  function Marking(todo: map<Name, nat>): Update { Update(todo, Choosing, BUDGET) }

  function Phase2(st: Stage): Update { Update(GONE, st, BUDGET) }

  function FirstHalf(): seq<Action>
  {
    [Begin(NONE, []), Begin(NONE, []), Choose(0, "a"), Observe(0), CloseDb(0), Delete(0)]
  }

  lemma Start(c: Config)
    ensures InitialOrder(Only(c), ["a"])
    ensures Initial(Only(c), ["a"]) == State(At(0), Only(c), [Fresh(c)], [], [])
  {
    assert ToClose(EMPTY, Only(c)) == GONE;
    assert Bind(GONE, ["a"], 0) == At(0);
  }

  lemma TwoCallsMark(c: Config)
    ensures Step(State(At(0), Only(c), [Fresh(c)], [], []), Begin(NONE, []),
                 State(At(0), NONE, [Dropped(c, false)], [], [Marking(At(0))]))
    ensures Step(State(At(0), NONE, [Dropped(c, false)], [], [Marking(At(0))]), Begin(NONE, []),
                 State(At(0), NONE, [Dropped(c, false)], [], [Marking(At(0)), Marking(At(0))]))
  {
    assert At(0).Values == {0} by { assert At(0)["a"] == 0; }
    assert ToClose(State(At(0), Only(c), [Fresh(c)], [], []), NONE) == At(0);
    assert ToClose(State(At(0), NONE, [Dropped(c, false)], [], [Marking(At(0))]), NONE) == At(0);
  }

  lemma FirstDrains(c: Config)
    ensures Step(State(At(0), NONE, [Dropped(c, false)], [], [Marking(At(0)), Marking(At(0))]), Choose(0, "a"),
                 State(At(0), NONE, [Dropped(c, false)], [], [Phase2(Waiting("a", 0)), Marking(At(0))]))
    ensures Step(State(At(0), NONE, [Dropped(c, false)], [], [Phase2(Waiting("a", 0)), Marking(At(0))]), Observe(0),
                 State(At(0), NONE, [Dropped(c, false)], [], [Phase2(Ready("a", 0, true)), Marking(At(0))]))
  {
    assert At(0) - {"a"} == GONE;
  }

  lemma FirstDeletes(c: Config)
    ensures Step(State(At(0), NONE, [Dropped(c, false)], [], [Phase2(Ready("a", 0, true)), Marking(At(0))]), CloseDb(0),
                 State(At(0), NONE, [Dropped(c, true)], [], [Phase2(Closed("a", 0)), Marking(At(0))]))
    ensures Step(State(At(0), NONE, [Dropped(c, true)], [], [Phase2(Closed("a", 0)), Marking(At(0))]), Delete(0),
                 State(GONE, NONE, [Dropped(c, true)], [], [DONE, Marking(At(0))]))
  {
    assert At(0) - {"a"} == GONE;
  }

  function FirstStates(c: Config): seq<State>
  {
    [State(At(0), Only(c), [Fresh(c)], [], []),
     State(At(0), NONE, [Dropped(c, false)], [], [Marking(At(0))]),
     State(At(0), NONE, [Dropped(c, false)], [], [Marking(At(0)), Marking(At(0))]),
     State(At(0), NONE, [Dropped(c, false)], [], [Phase2(Waiting("a", 0)), Marking(At(0))]),
     State(At(0), NONE, [Dropped(c, false)], [], [Phase2(Ready("a", 0, true)), Marking(At(0))]),
     State(At(0), NONE, [Dropped(c, true)], [], [Phase2(Closed("a", 0)), Marking(At(0))]),
     State(GONE, NONE, [Dropped(c, true)], [], [DONE, Marking(At(0))])]
  }

  lemma FirstHalfPasses(c: Config)
    ensures Passes(FirstStates(c), FirstHalf())
  {
    TwoCallsMark(c);
    FirstDrains(c);
    FirstDeletes(c);
  }

  function SecondHalf(d: Config): seq<Action>
  {
    [Begin(Only(d), ["a"]), Lookup("a"), Choose(1, "a"), Observe(1), CloseDb(1), Delete(1)]
  }

  /** The second half, with the entry `f` re-added under the name "a". */
  function Readded(c: Config, d: Config, gets: seq<Get>, u: Update): State
  {
    State(At(1), Only(d), [Dropped(c, true), Fresh(d)], gets, [DONE, u, DONE])
  }

  const LOOKED: seq<Get> := [Get("a", 1, Looked)]

  lemma ReAdds(c: Config, d: Config)
    ensures Step(State(GONE, NONE, [Dropped(c, true)], [], [DONE, Marking(At(0))]), Begin(Only(d), ["a"]),
                 Readded(c, d, [], Marking(At(0))))
    ensures Step(Readded(c, d, [], Marking(At(0))), Lookup("a"), Readded(c, d, LOOKED, Marking(At(0))))
  {
    assert ToClose(State(GONE, NONE, [Dropped(c, true)], [], [DONE, Marking(At(0))]), Only(d)) == GONE;
    assert Bind(GONE, ["a"], 1) == At(1);
  }

  lemma SecondDrains(c: Config, d: Config)
    ensures Step(Readded(c, d, LOOKED, Marking(At(0))), Choose(1, "a"), Readded(c, d, LOOKED, Phase2(Waiting("a", 0))))
    ensures Step(Readded(c, d, LOOKED, Phase2(Waiting("a", 0))), Observe(1),
                 Readded(c, d, LOOKED, Phase2(Ready("a", 0, true))))
    ensures Step(Readded(c, d, LOOKED, Phase2(Ready("a", 0, true))), CloseDb(1),
                 Readded(c, d, LOOKED, Phase2(Closed("a", 0))))
  {
    assert At(0) - {"a"} == GONE;
  }

  lemma SecondDeletes(c: Config, d: Config)
    ensures Step(Readded(c, d, LOOKED, Phase2(Closed("a", 0))), Delete(1),
                 State(GONE, Only(d), [Dropped(c, true), Fresh(d)], LOOKED, [DONE, DONE, DONE]))
  {
    assert At(1) - {"a"} == GONE;
  }

  function SecondStates(c: Config, d: Config): seq<State>
  {
    [State(GONE, NONE, [Dropped(c, true)], [], [DONE, Marking(At(0))]),
     Readded(c, d, [], Marking(At(0))), Readded(c, d, LOOKED, Marking(At(0))),
     Readded(c, d, LOOKED, Phase2(Waiting("a", 0))), Readded(c, d, LOOKED, Phase2(Ready("a", 0, true))),
     Readded(c, d, LOOKED, Phase2(Closed("a", 0))),
     State(GONE, Only(d), [Dropped(c, true), Fresh(d)], LOOKED, [DONE, DONE, DONE])]
  }

  lemma SecondHalfPasses(c: Config, d: Config)
    ensures Passes(SecondStates(c, d), SecondHalf(d))
  {
    ReAdds(c, d);
    SecondDrains(c, d);
    SecondDeletes(c, d);
  }

  lemma OverlapPasses(c: Config, d: Config)
    ensures Passes(FirstStates(c) + SecondStates(c, d)[1..], FirstHalf() + SecondHalf(d))
  {
    FirstHalfPasses(c);
    SecondHalfPasses(c, d);
    PassesAppend(FirstStates(c), FirstHalf(), SecondStates(c, d), SecondHalf(d));
  }

  /** With overlapping updates a database opened by a third one leaks: it leaves the map without
      ever being marked or closed. */
  lemma OverlapLeaks(c: Config, d: Config)
    ensures Possible(Only(c), ["a"], FirstHalf() + SecondHalf(d))
    ensures var s := Reached(Only(c), ["a"], FirstHalf() + SecondHalf(d));
      && s == State(GONE, Only(d), [Dropped(c, true), Fresh(d)], LOOKED, [DONE, DONE, DONE])
      && PoolCover.Leaked(s, 1)
  {
    Start(c);
    OverlapPasses(c, d);
    PassesRun(FirstStates(c) + SecondStates(c, d)[1..], FirstHalf() + SecondHalf(d));
  }

  lemma ReconfigureThenCheck(c: Config, d: Config, x: Config)
    ensures Step(State(GONE, Only(d), [Dropped(c, true), Fresh(d)], LOOKED, [DONE, DONE, DONE]), Begin(Only(x), ["a"]),
                 State(At(2), Only(x), [Dropped(c, true), Fresh(d), Fresh(x)], LOOKED, [DONE, DONE, DONE, DONE]))
    ensures Step(State(At(2), Only(x), [Dropped(c, true), Fresh(d), Fresh(x)], LOOKED, [DONE, DONE, DONE, DONE]),
                 Check(0),
                 State(At(2), Only(x), [Dropped(c, true), Fresh(d), Fresh(x)], [Get("a", 1, Passed)],
                       [DONE, DONE, DONE, DONE]))
  {
    assert ToClose(State(GONE, Only(d), [Dropped(c, true), Fresh(d)], LOOKED, [DONE, DONE, DONE]), Only(x)) == GONE;
    assert Bind(GONE, ["a"], 2) == At(2);
  }

  /** And a `Get` that had read the map before passes its closing check on that database long
      after the cluster's identity moved on from `d` to `x`. */
  lemma OverlapGetSeesStaleIdentity(c: Config, d: Config, x: Config)
    ensures var actions := FirstHalf() + SecondHalf(d) + [Begin(Only(x), ["a"]), Check(0)];
      && Possible(Only(c), ["a"], actions)
      && var s := Reached(Only(c), ["a"], actions);
         && s.gets == [Get("a", 1, Passed)] && |s.entries| == 3
         && s.entries[1].openedWith == d && s.configs == Only(x)
  {
    var last := [
      State(GONE, Only(d), [Dropped(c, true), Fresh(d)], LOOKED, [DONE, DONE, DONE]),
      State(At(2), Only(x), [Dropped(c, true), Fresh(d), Fresh(x)], LOOKED, [DONE, DONE, DONE, DONE]),
      State(At(2), Only(x), [Dropped(c, true), Fresh(d), Fresh(x)], [Get("a", 1, Passed)], [DONE, DONE, DONE, DONE])];
    var states := FirstStates(c) + SecondStates(c, d)[1..];
    Start(c);
    OverlapPasses(c, d);
    ReconfigureThenCheck(c, d, x);
    PassesAppend(states, FirstHalf() + SecondHalf(d), last, [Begin(Only(x), ["a"]), Check(0)]);
    PassesRun(states + last[1..], FirstHalf() + SecondHalf(d) + [Begin(Only(x), ["a"]), Check(0)]);
  }
}
