/** The reference count is a 32-bit integer: what happens when handles are never released. */
module PoolWrap {
  import opened PoolModel
  import opened PoolSafety

  /** The pool of one cluster after `n` successful `Get`s and no release. */
  function Grabbed(c: Config, n: nat): (s: State)
    ensures |s.gets| == n
  {
    State(map["a" := 0], map["a" := c], [Fresh(c).(refCount := Wrap32(n))], seq(n, i => Get("a", 0, Holding)), [])
  }

  lemma GrabOne(c: Config, n: nat)
    ensures var s := Grabbed(c, n);
      && Enabled(s, Lookup("a"))
      && var looked := Next(s, Lookup("a"));
         && Enabled(looked, Check(n))
         && var passed := Next(looked, Check(n));
            Enabled(passed, Bump(n)) && Next(passed, Bump(n)) == Grabbed(c, n + 1)
  {
    var passed := Next(Next(Grabbed(c, n), Lookup("a")), Check(n));
    assert passed.gets == Grabbed(c, n).gets + [Get("a", 0, Passed)];
    WrapAdd(n, 1);
    assert Next(passed, Bump(n)).gets == Grabbed(c, n + 1).gets;
  }

  lemma {:induction false} GrabMany(c: Config, n: nat) returns (states: seq<State>, actions: seq<Action>)
    ensures Passes(states, actions) && states[0] == Grabbed(c, 0) && states[|actions|] == Grabbed(c, n)
  {
    if n == 0 {
      return [Grabbed(c, 0)], [];
    }
    var before, done := GrabMany(c, n - 1);
    GrabOne(c, n - 1);
    var s := Grabbed(c, n - 1);
    var looked := Next(s, Lookup("a"));
    var three := [s, looked, Next(looked, Check(n - 1)), Grabbed(c, n)];
    var steps := [Lookup("a"), Check(n - 1), Bump(n - 1)];
    assert Passes(three, steps);
    PassesAppend(before, done, three, steps);
    states, actions := before + three[1..], done + steps;
  }

  lemma {:induction false} AllHolding(gets: seq<Get>, e: nat)
    requires forall k :: 0 <= k < |gets| ==> Counts(gets[k], e, {Holding})
    ensures Count(gets, e, {Holding}) == |gets|
  {
    if gets != [] { AllHolding(gets[..|gets| - 1], e); }
  }

  /** Nothing in the program releases a handle, so any number `n` of them can be out at once; the
      count then reads `n` modulo 2^32, and at 2^32 handles it is zero. */
  lemma UnreleasedGetsWrap(c: Config, n: nat) returns (actions: seq<Action>)
    ensures Possible(map["a" := c], ["a"], actions)
    ensures var s := Reached(map["a" := c], ["a"], actions);
      && |s.entries| == 1 && s.clusters == map["a" := 0]
      && Held(s, 0) == n && s.entries[0].refCount == Wrap32(n)
      && (n == 0x1_0000_0000 ==> s.entries[0].refCount == 0)
  {
    var cfg := map["a" := c];
    assert Bind(map[], ["a"], 0) == map["a" := 0];
    assert Initial(cfg, ["a"]) == Grabbed(c, 0);
    var states;
    states, actions := GrabMany(c, n);
    PassesRun(states, actions);
    AllHolding(Grabbed(c, n).gets, 0);
  }
}
