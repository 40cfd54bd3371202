/** The per-IP rate limiter: token buckets created on first use and dropped when idle.  A request
    first fetches its bucket (`GetLimiter`) and then asks it (`Allow`); cleanups and other requests
    may come in between. */
module RateLimiterModel {
  type Ip = string

  datatype Config = Config(rate: real, burst: nat)

  /** Requests per second and burst of `DefaultRateLimiterConfig`. */
  const DEFAULT: Config := Config(10.0, 20)

  /** Idle time after which `cleanup` drops an entry, in seconds. */
  const IDLE: real := 300.0

  // ---- The token bucket of golang.org/x/time/rate ----

  /** `tokens` were left at time `last`. */
  datatype Bucket = Bucket(tokens: real, last: real)

  function Cap(c: Config, x: real): real
  {
    if x < c.burst as real then x else c.burst as real
  }

  /** Tokens available at time `t`; a clock that went back adds nothing. */
  function Refill(c: Config, b: Bucket, t: real): (r: real)
    ensures r <= c.burst as real
  {
    Cap(c, if t <= b.last then b.tokens else b.tokens + c.rate * (t - b.last))
  }

  function Full(c: Config, t: real): Bucket
  {
    Bucket(c.burst as real, t)
  }

  predicate Admits(c: Config, b: Bucket, t: real)
  {
    Refill(c, b, t) >= 1.0
  }

  /** A refused request leaves the bucket as it is. */
  function Take(c: Config, b: Bucket, t: real): Bucket
  {
    if Admits(c, b, t) then Bucket(Refill(c, b, t) - 1.0, t) else b
  }

  // ---- The limiter ----

  datatype Entry = Entry(limiter: nat, lastSeen: real)

  /** A request that has fetched its bucket at time `at`. */
  datatype Handle = Handle(ip: Ip, limiter: nat, at: real, decided: bool)

  datatype Decision = Decision(ip: Ip, at: real, admitted: bool)

  /** Buckets are never forgotten, so an index is a `*rate.Limiter`. */
  datatype State = State(
    ips: map<Ip, Entry>,
    limiters: seq<Bucket>,
    handles: seq<Handle>,
    log: seq<Decision>,
    now: real)

  datatype Action = Arrive(ip: Ip, at: real) | Decide(handle: nat, at: real) | Cleanup(at: real)

  const START: State := State(map[], [], [], [], 0.0)

  /** Time does not run backwards, and a request asks its bucket once, at most `stall` seconds
      after fetching it. */
  predicate Enabled(stall: real, s: State, a: Action)
  {
    && s.now <= a.at
    && (a.Decide? ==>
          && a.handle < |s.handles|
          && var h := s.handles[a.handle];
             !h.decided && h.limiter < |s.limiters| && a.at <= h.at + stall)
  }

  function Survivors(ips: map<Ip, Entry>, now: real): map<Ip, Entry>
  {
    map ip | ip in ips && !(ips[ip].lastSeen < now - IDLE) :: ips[ip]
  }

  function Next(c: Config, stall: real, s: State, a: Action): State
    requires Enabled(stall, s, a)
  {
    match a
    case Arrive(ip, t) =>
      if ip in s.ips then
        var e := s.ips[ip];
        s.(ips := s.ips[ip := e.(lastSeen := t)], handles := s.handles + [Handle(ip, e.limiter, t, false)], now := t)
      else
        State(s.ips[ip := Entry(|s.limiters|, t)], s.limiters + [Full(c, t)],
              s.handles + [Handle(ip, |s.limiters|, t, false)], s.log, t)
    case Decide(k, t) =>
      var h := s.handles[k];
      var b := s.limiters[h.limiter];
      State(s.ips, s.limiters[h.limiter := Take(c, b, t)], s.handles[k := h.(decided := true)],
            s.log + [Decision(h.ip, t, Admits(c, b, t))], t)
    case Cleanup(t) => s.(ips := Survivors(s.ips, t), now := t)
  }

  predicate Runs(c: Config, stall: real, s: State, actions: seq<Action>)
    decreases |actions|
  {
    actions == [] ||
    (Enabled(stall, s, actions[0]) && Runs(c, stall, Next(c, stall, s, actions[0]), actions[1..]))
  }

  function Exec(c: Config, stall: real, s: State, actions: seq<Action>): State
    requires Runs(c, stall, s, actions)
    decreases |actions|
  {
    if actions == [] then s else Exec(c, stall, Next(c, stall, s, actions[0]), actions[1..])
  }

  // ---- The reference: one bucket per address that is never dropped ----

  /** The bucket of `ip` after the requests of `log`; only their times and addresses are read. */
  function Ideal(c: Config, log: seq<Decision>, ip: Ip): Bucket
  {
    if log == [] then Full(c, 0.0)
    else
      var d := log[|log| - 1];
      var b := Ideal(c, log[..|log| - 1], ip);
      if d.ip == ip then Take(c, b, d.at) else b
  }

  /** Every decision is the one the never-dropped bucket of its address would have made. */
  predicate Faithful(c: Config, log: seq<Decision>)
  {
    forall i :: 0 <= i < |log| ==> log[i].admitted == Admits(c, Ideal(c, log[..i], log[i].ip), log[i].at)
  }

  predicate Sorted(log: seq<Decision>)
  {
    && (forall i :: 0 <= i < |log| ==> 0.0 <= log[i].at)
    && (forall i, j :: 0 <= i < j < |log| ==> log[i].at <= log[j].at)
  }

  /** Requests of `ip` admitted at times in [from, upto]. */
  function Admitted(log: seq<Decision>, ip: Ip, from: real, upto: real): nat
  {
    if log == [] then 0
    else
      var d := log[|log| - 1];
      Admitted(log[..|log| - 1], ip, from, upto)
        + if d.ip == ip && d.admitted && from <= d.at <= upto then 1 else 0
  }
}
