/** When a request must be admitted: the exact law, in terms of the requests admitted before it and of
    nothing else. */
module RateLimiterLaw {
  import opened RateLimiterModel
  import opened RateLimiterProofs
  import opened RateLimiterExact

  /** One more admission at time `t`, after those of `log` since `from`, is within the burst and the
      inflow. */
  predicate Fits(c: Config, log: seq<Decision>, ip: Ip, from: real, t: real)
  {
    Admitted(log, ip, from, t) as real + 1.0 <= c.burst as real + c.rate * (t - from)
  }

  /** It is so in every window that ends there. */
  ghost predicate HasRoom(c: Config, log: seq<Decision>, ip: Ip, t: real)
  {
    forall from :: 0.0 <= from <= t ==> Fits(c, log, ip, from, t)
  }

  ghost predicate LawAt(c: Config, log: seq<Decision>, i: nat)
    requires i < |log|
  {
    log[i].admitted <==> HasRoom(c, log[..i], log[i].ip, log[i].at)
  }

  /** Exactly the requests for which there is room are admitted. */
  ghost predicate Lawful(c: Config, log: seq<Decision>)
  {
    forall i :: 0 <= i < |log| ==> LawAt(c, log, i)
  }

  predicate AllBy(log: seq<Decision>, t: real)
  {
    forall i :: 0 <= i < |log| ==> log[i].at <= t
  }

  /** The window from `from` is tight: what it has admitted and what the bucket still has are the burst
      and all that has flowed in. */
  predicate Tight(c: Config, log: seq<Decision>, ip: Ip, from: real, t: real)
  {
    0.0 <= from <= t &&
    Admitted(log, ip, from, t) as real + Refill(c, Ideal(c, log, ip), t) == c.burst as real + c.rate * (t - from)
  }

  /** A full bucket: the window that has just begun is tight. */
  lemma FullIsTight(c: Config, log: seq<Decision>, ip: Ip, t: real)
    requires 0.0 <= t && Refill(c, Ideal(c, log, ip), t) == c.burst as real && Admitted(log, ip, t, t) == 0
    ensures Tight(c, log, ip, t, t)
  {
    TimesZero(c.rate, t - t);
  }

  /** The bucket of an address that just took a token, later. */
  lemma TakenLater(c: Config, b: Bucket, u: real, t: real)
    requires c.rate >= 0.0 && b.last <= u <= t && Admits(c, b, u)
    ensures var left := Refill(c, b, u) - 1.0 + c.rate * (t - u);
      Refill(c, Take(c, b, u), t) == Cap(c, left)
    ensures u == t ==> Refill(c, Take(c, b, u), t) == Refill(c, b, u) - 1.0
  {
    RefillNow(c, Refill(c, b, u) - 1.0, u);
    RefillLater(c, Take(c, b, u), u, t);
    TimesZero(c.rate, t - u);
  }

  lemma WaitIsTight(c: Config, log: seq<Decision>, ip: Ip, from: real, u: real, t: real)
    requires c.rate >= 0.0 && u <= t && AllBy(log, u) && Tight(c, log, ip, from, u) && Ideal(c, log, ip).last <= u
    ensures Refill(c, Ideal(c, log, ip), t) < c.burst as real ==> Tight(c, log, ip, from, t)
  {
    SameCount(log, ip, from, u, t);
    RefillLater(c, Ideal(c, log, ip), u, t);
    FlowsIn(c.rate, from, u, t);
  }

  lemma TakeIsTight(c: Config, log: seq<Decision>, ip: Ip, from: real)
    requires c.rate >= 0.0 && log != [] && Faithful(c, log)
    requires var n := |log| - 1; var d := log[n];
      && d.ip == ip && d.admitted && AllBy(log[..n], d.at)
      && Tight(c, log[..n], ip, from, d.at) && Ideal(c, log[..n], ip).last <= d.at
    ensures Tight(c, log, ip, from, log[|log| - 1].at)
  {
    var n := |log| - 1;
    IdealTakes(c, log, ip);
    TakenLater(c, Ideal(c, log[..n], ip), log[n].at, log[n].at);
    AdmittedAppend(log, ip, from, log[n].at);
  }

  lemma NotMineIsTight(c: Config, log: seq<Decision>, ip: Ip, from: real, t: real)
    requires log != [] && Faithful(c, log) && !(log[|log| - 1].ip == ip && log[|log| - 1].admitted)
    requires Tight(c, log[..|log| - 1], ip, from, t)
    ensures Tight(c, log, ip, from, t)
  {
    IdealTakes(c, log, ip);
  }

  /** After an admission at `u`, the window that was tight before it is tight at `t`, or, if the bucket
      is full again, the one that begins at `t`. */
  lemma LaterIsTight(c: Config, log: seq<Decision>, ip: Ip, from: real, t: real) returns (later: real)
    requires c.rate >= 0.0 && log != [] && Sorted(log) && Faithful(c, log) && log[|log| - 1].at <= t
    requires log[|log| - 1].ip == ip && log[|log| - 1].admitted
    requires Tight(c, log[..|log| - 1], ip, from, log[|log| - 1].at)
    ensures Tight(c, log, ip, later, t)
  {
    var u := log[|log| - 1].at;
    IdealBounds(c, log[..|log| - 1], ip, u);
    IdealBounds(c, log, ip, u);
    TakeIsTight(c, log, ip, from);
    if u == t {
      later := from;
    } else if Refill(c, Ideal(c, log, ip), t) < c.burst as real {
      later := from;
      WaitIsTight(c, log, ip, from, u, t);
    } else {
      later := t;
      NoneBefore(log, ip, t, t);
      FullIsTight(c, log, ip, t);
    }
  }

  /** Some window is always tight. */
  lemma {:induction false} SomeWindowIsTight(c: Config, log: seq<Decision>, ip: Ip, t: real) returns (from: real)
    requires c.rate >= 0.0 && 0.0 <= t && Sorted(log) && Faithful(c, log) && AllBy(log, t)
    ensures Tight(c, log, ip, from, t)
    decreases |log|
  {
    var n := |log| - 1;
    if log == [] {
      from := t;
      NonNegative(c.rate, t);
      FullIsTight(c, log, ip, t);
    } else {
      FaithfulPrefix(c, log, n);
      if log[n].ip == ip && log[n].admitted {
        from := SomeWindowIsTight(c, log[..n], ip, log[n].at);
        from := LaterIsTight(c, log, ip, from, t);
      } else {
        from := SomeWindowIsTight(c, log[..n], ip, t);
        NotMineIsTight(c, log, ip, from, t);
      }
    }
  }

  lemma TokenFits(c: Config, log: seq<Decision>, ip: Ip, from: real, t: real)
    requires c.rate >= 0.0 && 0.0 <= from <= t && Sorted(log) && Faithful(c, log) && AllBy(log, t)
    requires Admits(c, Ideal(c, log, ip), t)
    ensures Fits(c, log, ip, from, t)
  {
    Potential(c, log, ip, from, t);
  }

  lemma TightFitsToken(c: Config, log: seq<Decision>, ip: Ip, from: real, t: real)
    requires Tight(c, log, ip, from, t) && Fits(c, log, ip, from, t)
    ensures Admits(c, Ideal(c, log, ip), t)
  {
  }

  /** The bucket has a token exactly when there is room. */
  lemma TokenIsRoom(c: Config, log: seq<Decision>, ip: Ip, t: real)
    requires c.rate >= 0.0 && 0.0 <= t && Sorted(log) && Faithful(c, log) && AllBy(log, t)
    ensures Admits(c, Ideal(c, log, ip), t) <==> HasRoom(c, log, ip, t)
  {
    if Admits(c, Ideal(c, log, ip), t) {
      forall from | 0.0 <= from <= t ensures Fits(c, log, ip, from, t) { TokenFits(c, log, ip, from, t); }
    }
    if HasRoom(c, log, ip, t) {
      var from := SomeWindowIsTight(c, log, ip, t);
      TightFitsToken(c, log, ip, from, t);
    }
  }

  lemma FaithfulLast(c: Config, log: seq<Decision>)
    requires log != []
    ensures var n := |log| - 1;
      Faithful(c, log) <==>
        Faithful(c, log[..n]) && log[n].admitted == Admits(c, Ideal(c, log[..n], log[n].ip), log[n].at)
  {
    var n := |log| - 1;
    assert log[..n] + [log[n]] == log;
    if Faithful(c, log) { FaithfulPrefix(c, log, n); }
    if Faithful(c, log[..n]) && log[n].admitted == Admits(c, Ideal(c, log[..n], log[n].ip), log[n].at) {
      FaithfulAppend(c, log[..n], log[n]);
    }
  }

  lemma LawfulLast(c: Config, log: seq<Decision>)
    requires log != []
    ensures Lawful(c, log) <==> Lawful(c, log[..|log| - 1]) && LawAt(c, log, |log| - 1)
  {
    var n := |log| - 1;
    forall i | 0 <= i < n ensures LawAt(c, log[..n], i) == LawAt(c, log, i) {
      assert log[..n][..i] == log[..i];
    }
  }

  /** Deciding as never-dropped buckets do, and admitting exactly where there is room, are the same. */
  lemma {:induction false} FaithfulIsLawful(c: Config, log: seq<Decision>)
    requires c.rate >= 0.0 && Sorted(log)
    ensures Faithful(c, log) <==> Lawful(c, log)
    decreases |log|
  {
    if log != [] {
      var n := |log| - 1;
      FaithfulIsLawful(c, log[..n]);
      FaithfulLast(c, log);
      LawfulLast(c, log);
      if Faithful(c, log[..n]) { TokenIsRoom(c, log[..n], log[n].ip, log[n].at); }
    }
  }

  /** In every run, evictions included, a request is admitted if and only if, for every moment before
      it, the requests of its address admitted since then and itself are no more than the burst and
      the inflow since then. */
  lemma AdmittedExactlyWhenThereIsRoom(c: Config, stall: real, actions: seq<Action>, i: nat)
    requires Proviso(c, stall) && Runs(c, stall, START, actions) && i < |Exec(c, stall, START, actions).log|
    ensures var log := Exec(c, stall, START, actions).log; var d := log[i];
      d.admitted <==> forall from :: 0.0 <= from <= d.at ==> Fits(c, log[..i], d.ip, from, d.at)
  {
    var log := Exec(c, stall, START, actions).log;
    CleanupIsInvisible(c, stall, actions);
    FaithfulIsLawful(c, log);
    assert LawAt(c, log, i);
  }

  /** The law holds in every run exactly under the proviso. */
  lemma LawNeedsTheProviso(c: Config, stall: real)
    requires c.rate >= 0.0 && 0.0 <= stall <= IDLE
    ensures Proviso(c, stall) <==>
      forall actions :: Runs(c, stall, START, actions) ==> Lawful(c, Exec(c, stall, START, actions).log)
  {
    forall actions | Runs(c, stall, START, actions)
      ensures Faithful(c, Exec(c, stall, START, actions).log) <==> Lawful(c, Exec(c, stall, START, actions).log)
    {
      RunIsSorted(c, stall, START, actions);
      FaithfulIsLawful(c, Exec(c, stall, START, actions).log);
    }
    ProvisoIsExact(c, stall);
  }
}
