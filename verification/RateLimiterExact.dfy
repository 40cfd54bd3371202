/** The proviso is exact: when it fails, some run of the limiter shows the eviction. */
module RateLimiterExact {
  import opened RateLimiterModel
  import opened RateLimiterProofs

  const IP: Ip := "a"

  predicate Reaches(c: Config, stall: real, actions: seq<Action>, s: State)
  {
    Runs(c, stall, START, actions) && Exec(c, stall, START, actions) == s
  }

  lemma {:induction false} RunsSnoc(c: Config, stall: real, s: State, actions: seq<Action>, a: Action)
    requires Runs(c, stall, s, actions) && Enabled(stall, Exec(c, stall, s, actions), a)
    ensures Runs(c, stall, s, actions + [a])
    ensures Exec(c, stall, s, actions + [a]) == Next(c, stall, Exec(c, stall, s, actions), a)
    decreases |actions|
  {
    if actions == [] {
      assert [a][1..] == [] && actions + [a] == [a];
    } else {
      RunsSnoc(c, stall, Next(c, stall, s, actions[0]), actions[1..], a);
      assert (actions + [a])[1..] == actions[1..] + [a];
    }
  }

  lemma Go(c: Config, stall: real, actions: seq<Action>, s: State, a: Action)
    requires Reaches(c, stall, actions, s) && Enabled(stall, s, a)
    ensures Reaches(c, stall, actions + [a], Next(c, stall, s, a))
  {
    RunsSnoc(c, stall, START, actions, a);
  }

  /** The handles from `base` on are requests of `IP` that fetched bucket `l` at time `t`. */
  predicate Queue(s: State, base: nat, l: nat, t: real)
  {
    base <= |s.handles| && forall k :: base <= k < |s.handles| ==> s.handles[k] == Handle(IP, l, t, false)
  }

  /** More requests of `IP` arrive, all at time `t`. */
  lemma {:induction false} ArriveMany(
      c: Config, stall: real, actions: seq<Action>, s: State, base: nat, l: nat, t: real, n: nat)
      returns (more: seq<Action>, r: State)
    requires Reaches(c, stall, actions, s) && s.now == t
    requires IP in s.ips && s.ips == map[IP := Entry(l, t)] && Queue(s, base, l, t)
    ensures Reaches(c, stall, more, r) && Queue(r, base, l, t)
    ensures |r.handles| == |s.handles| + n
    ensures r.ips == s.ips && r.limiters == s.limiters && r.log == s.log && r.now == t
    decreases n
  {
    if n == 0 {
      more, r := actions, s;
    } else {
      Go(c, stall, actions, s, Arrive(IP, t));
      var next := Next(c, stall, s, Arrive(IP, t));
      assert next.ips == s.ips;
      more, r := ArriveMany(c, stall, actions + [Arrive(IP, t)], next, base, l, t, n - 1);
    }
  }

  /** The queued requests from `k` on ask their bucket, which has a token for each. */
  lemma {:induction false} DecideMany(
      c: Config, stall: real, actions: seq<Action>, s: State, k: nat, l: nat, at: real, t: real)
      returns (more: seq<Action>, r: State)
    requires Reaches(c, stall, actions, s) && Queue(s, k, l, at) && l < |s.limiters|
    requires s.now <= t <= at + stall && s.limiters[l].last <= t
    requires Refill(c, s.limiters[l], t) >= (|s.handles| - k) as real
    ensures Reaches(c, stall, more, r) && |r.handles| == |s.handles|
    ensures r.ips == s.ips && |r.limiters| == |s.limiters| && r.now <= t
    ensures |r.log| == |s.log| + (|s.handles| - k) && r.log[..|s.log|] == s.log
    ensures forall i :: |s.log| <= i < |r.log| ==> r.log[i] == Decision(IP, t, true)
    decreases |s.handles| - k
  {
    if k == |s.handles| {
      more, r := actions, s;
    } else {
      var a := Decide(k, t);
      assert s.handles[k] == Handle(IP, l, at, false);
      Go(c, stall, actions, s, a);
      var next := Next(c, stall, s, a);
      RefillNow(c, Refill(c, s.limiters[l], t) - 1.0, t);
      more, r := DecideMany(c, stall, actions + [a], next, k + 1, l, at, t);
      assert r.log[..|s.log|] == next.log[..|s.log|];
    }
  }

  lemma {:induction false} CountAll(log: seq<Decision>, from: real, upto: real)
    requires forall i :: 0 <= i < |log| ==> log[i].ip == IP && log[i].admitted && from <= log[i].at <= upto
    ensures Admitted(log, IP, from, upto) == |log|
  {
    if log != [] { CountAll(log[..|log| - 1], from, upto); }
  }

  /** A whole burst that arrives at time `at` and asks at `t`, with no entry for `IP` before. */
  lemma Burst(c: Config, stall: real, actions: seq<Action>, s: State, at: real, t: real)
      returns (more: seq<Action>, r: State)
    requires Reaches(c, stall, actions, s) && s.ips == map[] && c.rate >= 0.0 && c.burst >= 1
    requires s.now <= at <= t <= at + stall
    ensures Reaches(c, stall, more, r)
    ensures r.ips == map[IP := Entry(|s.limiters|, at)] && r.now <= t
    ensures |r.log| == |s.log| + c.burst && r.log[..|s.log|] == s.log
    ensures forall i :: |s.log| <= i < |r.log| ==> r.log[i] == Decision(IP, t, true)
  {
    var l := |s.limiters|;
    var first := Arrive(IP, at);
    Go(c, stall, actions, s, first);
    var mid := Next(c, stall, s, first);
    assert mid.limiters[l] == Full(c, at);
    more, r := ArriveMany(c, stall, actions + [first], mid, |s.handles|, l, at, c.burst - 1);
    NewIsFull(c, at);
    FullLater(c, Full(c, at), at, t);
    more, r := DecideMany(c, stall, more, r, |s.handles|, l, at, t);
  }

  /** A burst, an eviction just after the idle time, and a second burst. */
  lemma TwoBursts(c: Config, stall: real, x: real) returns (more: seq<Action>, r: State)
    requires c.rate >= 0.0 && c.burst >= 1 && 0.0 <= stall <= IDLE < x
    ensures Reaches(c, stall, more, r) && |r.log| == 2 * c.burst
    ensures forall i :: 0 <= i < |r.log| ==> r.log[i].ip == IP && r.log[i].admitted && stall <= r.log[i].at <= x
  {
    more, r := Burst(c, stall, [], START, 0.0, stall);
    Go(c, stall, more, r, Cleanup(x));
    more, r := more + [Cleanup(x)], Next(c, stall, r, Cleanup(x));
    var log := r.log;
    assert r.ips == map[];
    more, r := Burst(c, stall, more, r, x, x);
    assert forall i :: 0 <= i < |log| ==> r.log[i] == r.log[..|log|][i];
  }

  /** A moment after the idle time at which a drained bucket is still not full. */
  lemma JustAfterIdle(c: Config, stall: real) returns (x: real)
    requires c.rate >= 0.0 && 0.0 <= stall <= IDLE && c.rate * (IDLE - stall) < c.burst as real
    ensures x > IDLE && c.rate * (x - stall) < c.burst as real
  {
    if c.rate == 0.0 {
      x := IDLE + 1.0;
    } else {
      var slack := c.burst as real - c.rate * (IDLE - stall);
      var e := slack / (2.0 * c.rate);
      x := IDLE + e;
      assert c.rate * e == slack / 2.0;
      FlowsIn(c.rate, stall, IDLE, x);
      assert x - IDLE == e;
    }
  }

  /** More requests are admitted in some window than the burst and the rate allow. */
  lemma EvictionShows(c: Config, stall: real) returns (actions: seq<Action>)
    requires c.rate >= 0.0 && 0.0 <= stall <= IDLE && c.rate * (IDLE - stall) < c.burst as real
    ensures Runs(c, stall, START, actions) && !WithinRate(c, Exec(c, stall, START, actions).log)
  {
    NonNegative(c.rate, IDLE - stall);
    var x := JustAfterIdle(c, stall);
    var r;
    actions, r := TwoBursts(c, stall, x);
    CountAll(r.log, stall, x);
    assert Admitted(r.log, IP, stall, x) == 2 * c.burst;
  }

  /** In every window of every address at most burst + rate * length requests are admitted. */
  ghost predicate WithinRate(c: Config, log: seq<Decision>)
  {
    forall ip, from, upto :: 0.0 <= from <= upto ==>
      Admitted(log, ip, from, upto) as real <= c.burst as real + c.rate * (upto - from)
  }

  lemma {:induction false} RunIsSorted(c: Config, stall: real, s: State, actions: seq<Action>)
    requires s.now >= 0.0 && LogOk(s) && Runs(c, stall, s, actions)
    ensures LogOk(Exec(c, stall, s, actions))
    decreases |actions|
  {
    if actions != [] { RunIsSorted(c, stall, Next(c, stall, s, actions[0]), actions[1..]); }
  }

  lemma FaithfulIsWithinRate(c: Config, stall: real, actions: seq<Action>)
    requires c.rate >= 0.0 && Runs(c, stall, START, actions) && Faithful(c, Exec(c, stall, START, actions).log)
    ensures WithinRate(c, Exec(c, stall, START, actions).log)
  {
    var log := Exec(c, stall, START, actions).log;
    RunIsSorted(c, stall, START, actions);
    forall ip, from, upto | 0.0 <= from <= upto
      ensures Admitted(log, ip, from, upto) as real <= c.burst as real + c.rate * (upto - from)
    {
      WindowOfFaithful(c, log, ip, from, upto);
    }
  }

  /** Eviction is invisible in every run, and every run keeps to the rate, exactly when an idle
      bucket has had time to fill up: burst <= rate * (300 s - stall). */
  lemma ProvisoIsExact(c: Config, stall: real)
    requires c.rate >= 0.0 && 0.0 <= stall <= IDLE
    ensures Proviso(c, stall) <==>
      forall actions :: Runs(c, stall, START, actions) ==> Faithful(c, Exec(c, stall, START, actions).log)
    ensures Proviso(c, stall) <==>
      forall actions :: Runs(c, stall, START, actions) ==> WithinRate(c, Exec(c, stall, START, actions).log)
  {
    if Proviso(c, stall) {
      forall actions | Runs(c, stall, START, actions)
        ensures Faithful(c, Exec(c, stall, START, actions).log) && WithinRate(c, Exec(c, stall, START, actions).log)
      {
        CleanupIsInvisible(c, stall, actions);
        FaithfulIsWithinRate(c, stall, actions);
      }
    } else {
      var actions := EvictionShows(c, stall);
      if Faithful(c, Exec(c, stall, START, actions).log) {
        FaithfulIsWithinRate(c, stall, actions);
        assert false;
      }
    }
  }
}
