/** Eviction is invisible, decisions are independent per address, and admissions are bounded. */
module RateLimiterProofs {
  import opened RateLimiterModel

  // ---- Refilling ----

  lemma Distribute(r: real, x: real, y: real)
    ensures r * (x + y) == r * x + r * y
  {
  }

  lemma NonNegative(r: real, x: real)
    requires r >= 0.0 && x >= 0.0
    ensures r * x >= 0.0
  {
  }

  lemma FlowsIn(r: real, from: real, u: real, t: real)
    ensures r * (u - from) + r * (t - u) == r * (t - from)
  {
    Distribute(r, u - from, t - u);
    assert (u - from) + (t - u) == t - from;
  }

  lemma TimesZero(r: real, x: real)
    ensures x == 0.0 ==> r * x == 0.0
  {
  }

  lemma RefillIs(c: Config, b: Bucket, t: real, gained: real)
    requires b.last <= t && gained == c.rate * (t - b.last)
    ensures Refill(c, b, t) == Cap(c, b.tokens + gained)
  {
    TimesZero(c.rate, t - b.last);
  }

  lemma CapAdds(c: Config, x: real, y: real)
    requires y >= 0.0
    ensures Cap(c, Cap(c, x) + y) == Cap(c, x + y)
  {
  }

  /** What is available later depends on the bucket only through what is available now. */
  lemma RefillLater(c: Config, b: Bucket, t: real, u: real)
    requires c.rate >= 0.0 && b.last <= t <= u
    ensures Refill(c, b, u) == Cap(c, Refill(c, b, t) + c.rate * (u - t))
  {
    var x, y := c.rate * (t - b.last), c.rate * (u - t);
    FlowsIn(c.rate, b.last, t, u);
    NonNegative(c.rate, u - t);
    RefillIs(c, b, t, x);
    RefillIs(c, b, u, x + y);
    CapAdds(c, b.tokens + x, y);
  }

  predicate Same(c: Config, a: Bucket, b: Bucket, t: real)
  {
    a.last <= t && b.last <= t && Refill(c, a, t) == Refill(c, b, t)
  }

  lemma SameLater(c: Config, a: Bucket, b: Bucket, t: real, u: real)
    requires c.rate >= 0.0 && Same(c, a, b, t) && t <= u
    ensures Same(c, a, b, u)
  {
    RefillLater(c, a, t, u);
    RefillLater(c, b, t, u);
  }

  lemma SameTake(c: Config, a: Bucket, b: Bucket, t: real)
    requires Same(c, a, b, t)
    ensures Admits(c, a, t) == Admits(c, b, t) && Same(c, Take(c, a, t), Take(c, b, t), t)
  {
  }

  predicate IsFull(c: Config, b: Bucket, t: real)
  {
    b.last <= t && Refill(c, b, t) == c.burst as real
  }

  lemma FullLater(c: Config, b: Bucket, t: real, u: real)
    requires c.rate >= 0.0 && IsFull(c, b, t) && t <= u
    ensures IsFull(c, b, u)
  {
    RefillLater(c, b, t, u);
    NonNegative(c.rate, u - t);
  }

  lemma NewIsFull(c: Config, t: real)
    ensures IsFull(c, Full(c, t), t)
  {
  }

  lemma RefillNonNegative(c: Config, b: Bucket, t: real)
    requires c.rate >= 0.0 && b.tokens >= 0.0
    ensures Refill(c, b, t) >= 0.0
  {
    if t >= b.last { NonNegative(c.rate, t - b.last); }
  }

  lemma Grows(r: real, x: real, y: real)
    requires r >= 0.0 && x <= y
    ensures r * x <= r * y
  {
    Distribute(r, x, y - x);
    NonNegative(r, y - x);
    assert x + (y - x) == y;
  }

  /** A bucket untouched for long enough is full. */
  lemma IdleIsFull(c: Config, b: Bucket, gap: real, t: real)
    requires c.rate >= 0.0 && b.tokens >= 0.0 && b.last + gap <= t && gap >= 0.0
    requires c.burst as real <= c.rate * gap
    ensures IsFull(c, b, t)
  {
    var elapsed := t - b.last;
    Grows(c.rate, gap, elapsed);
    RefillIs(c, b, t, c.rate * elapsed);
  }

  // ---- The invariant ----

  /** An idle entry has had time to fill up. */
  predicate Proviso(c: Config, stall: real)
  {
    c.rate >= 0.0 && 0.0 <= stall <= IDLE && c.burst as real <= c.rate * (IDLE - stall)
  }

  predicate EntriesOk(s: State)
  {
    && (forall ip :: ip in s.ips ==> s.ips[ip].limiter < |s.limiters| && 0.0 <= s.ips[ip].lastSeen <= s.now)
    && (forall ip, other :: ip in s.ips && other in s.ips && ip != other ==> s.ips[ip].limiter != s.ips[other].limiter)
  }

  /** A request that may still ask its bucket asks the one that is in the map. */
  predicate HandlesOk(stall: real, s: State)
  {
    forall k :: 0 <= k < |s.handles| && s.now <= s.handles[k].at + stall ==>
      var h := s.handles[k];
      h.ip in s.ips && s.ips[h.ip].limiter == h.limiter && h.at <= s.ips[h.ip].lastSeen
  }

  /** The bucket in the map behaves as the never-dropped one; without one, that one is full. */
  predicate Agrees(c: Config, stall: real, s: State, ip: Ip)
    requires EntriesOk(s)
  {
    var ideal := Ideal(c, s.log, ip);
    && ideal.tokens >= 0.0 && ideal.last <= s.now
    && if ip in s.ips then
         && Same(c, s.limiters[s.ips[ip].limiter], ideal, s.now)
         && ideal.last <= s.ips[ip].lastSeen + stall
       else IsFull(c, ideal, s.now)
  }

  predicate LogOk(s: State)
  {
    Sorted(s.log) && forall i :: 0 <= i < |s.log| ==> s.log[i].at <= s.now
  }

  ghost predicate Inv(c: Config, stall: real, s: State)
  {
    && s.now >= 0.0
    && EntriesOk(s) && HandlesOk(stall, s)
    && (forall ip :: Agrees(c, stall, s, ip))
    && Faithful(c, s.log) && LogOk(s)
  }

  lemma StartInv(c: Config, stall: real)
    ensures Inv(c, stall, START)
  {
  }

  /** Time alone changes nothing that can be observed. */
  lemma AgreesLater(c: Config, stall: real, s: State, ip: Ip, t: real)
    requires Proviso(c, stall) && EntriesOk(s) && Agrees(c, stall, s, ip) && s.now <= t
    ensures EntriesOk(s.(now := t)) && Agrees(c, stall, s.(now := t), ip)
  {
    var ideal := Ideal(c, s.log, ip);
    if ip in s.ips {
      SameLater(c, s.limiters[s.ips[ip].limiter], ideal, s.now, t);
    } else {
      FullLater(c, ideal, s.now, t);
    }
  }

  lemma ArriveAgrees(c: Config, stall: real, s: State, a: Action, ip: Ip)
    requires Proviso(c, stall) && EntriesOk(s) && Agrees(c, stall, s, ip)
    requires 0.0 <= s.now && Enabled(stall, s, a) && a.Arrive?
    ensures var r := Next(c, stall, s, a); EntriesOk(r) && Agrees(c, stall, r, ip)
  {
    NewIsFull(c, a.at);
    AgreesLater(c, stall, s, ip, a.at);
  }

  lemma ArriveKeeps(c: Config, stall: real, s: State, a: Action)
    requires Proviso(c, stall) && Inv(c, stall, s) && Enabled(stall, s, a) && a.Arrive?
    ensures Inv(c, stall, Next(c, stall, s, a))
  {
    var r := Next(c, stall, s, a);
    forall other ensures EntriesOk(r) && Agrees(c, stall, r, other) {
      ArriveAgrees(c, stall, s, a, other);
    }
    ArriveHandles(stall, s, c, a);
  }

  lemma ArriveHandles(stall: real, s: State, c: Config, a: Action)
    requires HandlesOk(stall, s) && EntriesOk(s) && Enabled(stall, s, a) && a.Arrive?
    ensures HandlesOk(stall, Next(c, stall, s, a))
  {
    var r := Next(c, stall, s, a);
    forall k | 0 <= k < |r.handles| && r.now <= r.handles[k].at + stall
      ensures var h := r.handles[k];
        h.ip in r.ips && r.ips[h.ip].limiter == h.limiter && h.at <= r.ips[h.ip].lastSeen
    {
      if k < |s.handles| { assert s.now <= s.handles[k].at + stall; }
    }
  }

  lemma EvictedIsFull(c: Config, stall: real, ideal: Bucket, lastSeen: real, t: real)
    requires Proviso(c, stall) && ideal.tokens >= 0.0 && ideal.last <= lastSeen + stall && lastSeen < t - IDLE
    ensures IsFull(c, ideal, t)
  {
    IdleIsFull(c, ideal, IDLE - stall, t);
  }

  lemma CleanupEntries(s: State, t: real)
    requires EntriesOk(s) && s.now <= t
    ensures EntriesOk(s.(ips := Survivors(s.ips, t), now := t))
  {
  }

  lemma CleanupAgrees(c: Config, stall: real, s: State, t: real, ip: Ip)
    requires Proviso(c, stall) && EntriesOk(s) && Agrees(c, stall, s, ip) && s.now <= t
    ensures var r := s.(ips := Survivors(s.ips, t), now := t);
      EntriesOk(r) && Agrees(c, stall, r, ip)
  {
    CleanupEntries(s, t);
    AgreesLater(c, stall, s, ip, t);
    if ip in s.ips && s.ips[ip].lastSeen < t - IDLE {
      EvictedIsFull(c, stall, Ideal(c, s.log, ip), s.ips[ip].lastSeen, t);
    }
  }

  lemma CleanupHandles(stall: real, s: State, c: Config, a: Action)
    requires HandlesOk(stall, s) && stall <= IDLE && Enabled(stall, s, a) && a.Cleanup?
    ensures HandlesOk(stall, Next(c, stall, s, a))
  {
    var r := Next(c, stall, s, a);
    forall k | 0 <= k < |r.handles| && r.now <= r.handles[k].at + stall
      ensures var h := r.handles[k];
        h.ip in r.ips && r.ips[h.ip].limiter == h.limiter && h.at <= r.ips[h.ip].lastSeen
    {
      assert s.now <= s.handles[k].at + stall;
    }
  }

  lemma CleanupKeeps(c: Config, stall: real, s: State, a: Action)
    requires Proviso(c, stall) && Inv(c, stall, s) && Enabled(stall, s, a) && a.Cleanup?
    ensures Inv(c, stall, Next(c, stall, s, a))
  {
    var r := Next(c, stall, s, a);
    forall ip ensures EntriesOk(r) && Agrees(c, stall, r, ip) {
      CleanupAgrees(c, stall, s, a.at, ip);
    }
    CleanupHandles(stall, s, c, a);
  }

  lemma IdealAppend(c: Config, log: seq<Decision>, d: Decision, ip: Ip)
    ensures Ideal(c, log + [d], ip) == if d.ip == ip then Take(c, Ideal(c, log, ip), d.at) else Ideal(c, log, ip)
  {
    assert (log + [d])[..|log|] == log;
  }

  lemma FaithfulAppend(c: Config, log: seq<Decision>, d: Decision)
    requires Faithful(c, log) && d.admitted == Admits(c, Ideal(c, log, d.ip), d.at)
    ensures Faithful(c, log + [d])
  {
    var r := log + [d];
    forall i | 0 <= i < |r| ensures r[i].admitted == Admits(c, Ideal(c, r[..i], r[i].ip), r[i].at) {
      if i < |log| { assert r[..i] == log[..i]; } else { assert r[..i] == log; }
    }
  }

  lemma DecideAgrees(c: Config, stall: real, s: State, k: nat, t: real, ip: Ip)
    requires Proviso(c, stall) && Inv(c, stall, s) && Enabled(stall, s, Decide(k, t))
    ensures EntriesOk(Next(c, stall, s, Decide(k, t)))
    ensures Agrees(c, stall, Next(c, stall, s, Decide(k, t)), ip)
    ensures Admits(c, s.limiters[s.handles[k].limiter], t) == Admits(c, Ideal(c, s.log, s.handles[k].ip), t)
  {
    var r := Next(c, stall, s, Decide(k, t));
    var h := s.handles[k];
    AgreesLater(c, stall, s, ip, t);
    AgreesLater(c, stall, s, h.ip, t);
    SameTake(c, s.limiters[h.limiter], Ideal(c, s.log, h.ip), t);
    IdealAppend(c, s.log, r.log[|s.log|], ip);
  }

  lemma DecideKeeps(c: Config, stall: real, s: State, k: nat, t: real)
    requires Proviso(c, stall) && Inv(c, stall, s) && Enabled(stall, s, Decide(k, t))
    ensures Inv(c, stall, Next(c, stall, s, Decide(k, t)))
  {
    var r := Next(c, stall, s, Decide(k, t));
    DecideAgrees(c, stall, s, k, t, s.handles[k].ip);
    forall ip ensures Agrees(c, stall, r, ip) {
      DecideAgrees(c, stall, s, k, t, ip);
    }
    FaithfulAppend(c, s.log, r.log[|s.log|]);
  }

  lemma {:induction false} RunKeepsInv(c: Config, stall: real, s: State, actions: seq<Action>)
    requires Proviso(c, stall) && Inv(c, stall, s) && Runs(c, stall, s, actions)
    ensures Inv(c, stall, Exec(c, stall, s, actions))
    decreases |actions|
  {
    if actions != [] {
      match actions[0] {
        case Arrive(_, _) => ArriveKeeps(c, stall, s, actions[0]);
        case Decide(k, t) => DecideKeeps(c, stall, s, k, t);
        case Cleanup(_) => CleanupKeeps(c, stall, s, actions[0]);
      }
      RunKeepsInv(c, stall, Next(c, stall, s, actions[0]), actions[1..]);
    }
  }

  /** Cleanup is invisible: whatever requests of whatever addresses and whatever cleanups make up
      the run, each decision is the one a bucket that is never dropped would have made from the
      earlier requests of the same address alone. */
  lemma CleanupIsInvisible(c: Config, stall: real, actions: seq<Action>)
    requires Proviso(c, stall) && Runs(c, stall, START, actions)
    ensures Faithful(c, Exec(c, stall, START, actions).log)
    ensures Sorted(Exec(c, stall, START, actions).log)
  {
    StartInv(c, stall);
    RunKeepsInv(c, stall, START, actions);
  }

  /** The times at which an address asked. */
  function Asked(log: seq<Decision>, ip: Ip): seq<real>
  {
    if log == [] then []
    else
      var d := log[|log| - 1];
      Asked(log[..|log| - 1], ip) + if d.ip == ip then [d.at] else []
  }

  /** A bucket that was asked at those times and at no other. */
  function After(c: Config, times: seq<real>): Bucket
  {
    if times == [] then Full(c, 0.0)
    else Take(c, After(c, times[..|times| - 1]), times[|times| - 1])
  }

  lemma {:induction false} IdealReadsOwnTimes(c: Config, log: seq<Decision>, ip: Ip)
    ensures Ideal(c, log, ip) == After(c, Asked(log, ip))
  {
    if log != [] {
      var before := Asked(log[..|log| - 1], ip);
      IdealReadsOwnTimes(c, log[..|log| - 1], ip);
      if log[|log| - 1].ip == ip {
        assert Asked(log, ip)[..|before|] == before;
      } else {
        assert Asked(log, ip) == before;
      }
    }
  }

  /** What an address is answered depends on its own requests alone: in any two runs, if it asked
      at the same times before and asks at the same time now, it is answered alike, whatever other
      addresses and cleanups do. */
  lemma AnswersDependOnOwnRequests(c: Config, stall: real, one: seq<Action>, two: seq<Action>, i: nat, j: nat)
    requires Proviso(c, stall) && Runs(c, stall, START, one) && Runs(c, stall, START, two)
    requires i < |Exec(c, stall, START, one).log| && j < |Exec(c, stall, START, two).log|
    ensures var a := Exec(c, stall, START, one).log; var b := Exec(c, stall, START, two).log;
      a[i].ip == b[j].ip && a[i].at == b[j].at && Asked(a[..i], a[i].ip) == Asked(b[..j], b[j].ip) ==>
        a[i].admitted == b[j].admitted
  {
    CleanupIsInvisible(c, stall, one);
    CleanupIsInvisible(c, stall, two);
    var a, b := Exec(c, stall, START, one).log, Exec(c, stall, START, two).log;
    IdealReadsOwnTimes(c, a[..i], a[i].ip);
    IdealReadsOwnTimes(c, b[..j], b[j].ip);
  }

  // ---- The bound on admissions ----

  lemma {:induction false} IdealBounds(c: Config, log: seq<Decision>, ip: Ip, t: real)
    requires c.rate >= 0.0 && 0.0 <= t && forall i :: 0 <= i < |log| ==> log[i].at <= t
    ensures var b := Ideal(c, log, ip); 0.0 <= b.tokens && b.last <= t && 0.0 <= Refill(c, b, t)
  {
    if log != [] {
      IdealBounds(c, log[..|log| - 1], ip, t);
    }
    RefillNonNegative(c, Ideal(c, log, ip), t);
  }

  lemma FaithfulPrefix(c: Config, log: seq<Decision>, n: nat)
    requires Faithful(c, log) && n <= |log|
    ensures Faithful(c, log[..n])
  {
    forall i | 0 <= i < n
      ensures log[..n][i].admitted == Admits(c, Ideal(c, log[..n][..i], log[..n][i].ip), log[..n][i].at)
    {
      assert log[..n][..i] == log[..i];
    }
  }

  lemma {:induction false} NoneBefore(log: seq<Decision>, ip: Ip, from: real, upto: real)
    requires forall i :: 0 <= i < |log| ==> log[i].at < from
    ensures Admitted(log, ip, from, upto) == 0
  {
    if log != [] { NoneBefore(log[..|log| - 1], ip, from, upto); }
  }

  lemma {:induction false} SameCount(log: seq<Decision>, ip: Ip, from: real, upto: real, later: real)
    requires upto <= later && forall i :: 0 <= i < |log| ==> log[i].at <= upto
    ensures Admitted(log, ip, from, upto) == Admitted(log, ip, from, later)
  {
    if log != [] { SameCount(log[..|log| - 1], ip, from, upto, later); }
  }

  lemma RefillNow(c: Config, tokens: real, u: real)
    requires tokens <= c.burst as real
    ensures Refill(c, Bucket(tokens, u), u) == tokens
  {
  }

  /** Taking, or not, and then letting time pass. */
  lemma TakeThenWait(c: Config, b: Bucket, took: bool, u: real, t: real)
    requires c.rate >= 0.0 && b.last <= u <= t
    requires took ==> Admits(c, b, u)
    ensures var b' := if took then Take(c, b, u) else b;
      (if took then 1.0 else 0.0) + Refill(c, b', t) <= Refill(c, b, u) + c.rate * (t - u)
  {
    var b' := if took then Take(c, b, u) else b;
    if took {
      RefillNow(c, Refill(c, b, u) - 1.0, u);
      assert Refill(c, b', u) == Refill(c, b, u) - 1.0;
    }
    RefillLater(c, b', u, t);
  }

  lemma PotentialStep(c: Config, b: Bucket, took: bool, count: nat, from: real, u: real, t: real)
    requires c.rate >= 0.0 && b.last <= u && from <= u <= t && (took ==> Admits(c, b, u))
    requires count as real + Refill(c, b, u) <= c.burst as real + c.rate * (u - from)
    ensures var now := if took then count + 1 else count;
      now as real + Refill(c, if took then Take(c, b, u) else b, t) <= c.burst as real + c.rate * (t - from)
  {
    TakeThenWait(c, b, took, u, t);
    FlowsIn(c.rate, from, u, t);
  }

  lemma AdmittedAppend(log: seq<Decision>, ip: Ip, from: real, upto: real)
    requires log != [] && from <= log[|log| - 1].at <= upto
    ensures var n := |log| - 1; var before := Admitted(log[..n], ip, from, upto);
      Admitted(log, ip, from, upto) == if log[n].ip == ip && log[n].admitted then before + 1 else before
  {
  }

  lemma IdealTakes(c: Config, log: seq<Decision>, ip: Ip)
    requires log != [] && Faithful(c, log)
    ensures var n := |log| - 1; var d := log[n]; var b := Ideal(c, log[..n], ip);
      && (d.ip == ip ==> d.admitted == Admits(c, b, d.at))
      && Ideal(c, log, ip) == if d.ip == ip && d.admitted then Take(c, b, d.at) else b
  {
    assert log[|log| - 1].admitted == Admits(c, Ideal(c, log[..|log| - 1], log[|log| - 1].ip), log[|log| - 1].at);
  }

  /** Admissions since `from` plus what is left never exceed the burst plus what has flowed in. */
  lemma {:induction false} Potential(c: Config, log: seq<Decision>, ip: Ip, from: real, t: real)
    requires c.rate >= 0.0 && 0.0 <= from <= t && Sorted(log) && Faithful(c, log)
    requires forall i :: 0 <= i < |log| ==> log[i].at <= t
    ensures Admitted(log, ip, from, t) as real + Refill(c, Ideal(c, log, ip), t)
            <= c.burst as real + c.rate * (t - from)
  {
    NonNegative(c.rate, t - from);
    var n := |log| - 1;
    if log == [] {
    } else if log[n].at < from {
      NoneBefore(log, ip, from, t);
    } else {
      var u, before := log[n].at, log[..n];
      FaithfulPrefix(c, log, n);
      Potential(c, before, ip, from, u);
      SameCount(before, ip, from, u, t);
      IdealBounds(c, before, ip, u);
      IdealTakes(c, log, ip);
      AdmittedAppend(log, ip, from, t);
      PotentialStep(
        c, Ideal(c, before, ip), log[n].ip == ip && log[n].admitted, Admitted(before, ip, from, u), from, u, t);
    }
  }

  lemma {:induction false} WindowOfFaithful(c: Config, log: seq<Decision>, ip: Ip, from: real, upto: real)
    requires c.rate >= 0.0 && 0.0 <= from <= upto && Sorted(log) && Faithful(c, log)
    ensures Admitted(log, ip, from, upto) as real <= c.burst as real + c.rate * (upto - from)
  {
    var n := |log| - 1;
    if log != [] && log[n].at > upto {
      FaithfulPrefix(c, log, n);
      WindowOfFaithful(c, log[..n], ip, from, upto);
    } else {
      Potential(c, log, ip, from, upto);
      IdealBounds(c, log, ip, upto);
    }
  }

  /** For every address and every window, at most burst + rate * length requests are admitted,
      evictions included. */
  lemma AdmissionsAreBounded(c: Config, stall: real, actions: seq<Action>, ip: Ip, from: real, upto: real)
    requires Proviso(c, stall) && Runs(c, stall, START, actions) && 0.0 <= from <= upto
    ensures Admitted(Exec(c, stall, START, actions).log, ip, from, upto) as real
            <= c.burst as real + c.rate * (upto - from)
  {
    CleanupIsInvisible(c, stall, actions);
    WindowOfFaithful(c, Exec(c, stall, START, actions).log, ip, from, upto);
  }

  /** The defaults meet the proviso for any stall up to 298 seconds. */
  lemma DefaultsMeetProviso(stall: real)
    ensures Proviso(DEFAULT, stall) <==> 0.0 <= stall <= 298.0
  {
  }
}
