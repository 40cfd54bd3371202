/** The limiter object.  The clock is a parameter; each method is one atomic step of
    `RateLimiterModel`. */
module IPRateLimiter {
  import opened RateLimiterModel

  class IPRateLimiter {
    const config: Config
    var ips: map<Ip, Entry>
    /** The heap of `rate.Limiter` objects: an index is a pointer. */
    var limiters: seq<Bucket>
    /** The requests that have fetched a bucket, the answers given, and the time of the last step. */
    ghost var handles: seq<Handle>
    ghost var log: seq<Decision>
    ghost var now: real

    ghost function View(): State
      reads this
    {
      State(ips, limiters, handles, log, now)
    }

    constructor (config: Config)
      ensures this.config == config && View() == START
    {
      this.config := config;
      ips, limiters := map[], [];
      handles, log, now := [], [], 0.0;
    }

    method GetLimiter(ip: Ip, at: real, ghost stall: real) returns (limiter: nat)
      requires now <= at
      modifies this
      ensures View() == Next(config, stall, old(View()), Arrive(ip, at))
      ensures ip in ips && limiter == ips[ip].limiter
    {
      if ip !in ips {
        limiter := |limiters|;
        limiters := limiters + [Full(config, at)];
        ips := ips[ip := Entry(limiter, at)];
      } else {
        var entry := ips[ip];
        ips := ips[ip := entry.(lastSeen := at)];
        limiter := entry.limiter;
      }
      handles := handles + [Handle(ip, limiter, at, false)];
      now := at;
    }

    /** `Allow` of the bucket that request `k` fetched. */
    method Allow(limiter: nat, at: real, ghost k: nat, ghost stall: real) returns (ok: bool)
      requires Enabled(stall, View(), Decide(k, at)) && handles[k].limiter == limiter
      modifies this
      ensures View() == Next(config, stall, old(View()), Decide(k, at))
      ensures ok == Admits(config, old(limiters)[limiter], at)
    {
      var tokens := Refill(config, limiters[limiter], at);
      ok := tokens >= 1.0;
      if ok {
        limiters := limiters[limiter := Bucket(tokens - 1.0, at)];
      }
      handles, log := handles[k := handles[k].(decided := true)], log + [Decision(handles[k].ip, at, ok)];
      now := at;
    }

    method Cleanup(at: real, ghost stall: real)
      requires now <= at
      modifies this
      ensures View() == Next(config, stall, old(View()), RateLimiterModel.Cleanup(at))
    {
      ghost var was := ips;
      var threshold := at - IDLE;
      var todo := ips.Keys;
      while todo != {}
        invariant todo <= was.Keys
        invariant limiters == old(limiters) && handles == old(handles) && log == old(log)
        invariant ips == map ip | ip in was && (ip in todo || !(was[ip].lastSeen < threshold)) :: was[ip]
        decreases todo
      {
        var ip :| ip in todo;
        if ips[ip].lastSeen < threshold {
          ips := ips - {ip};
        }
        todo := todo - {ip};
      }
      now := at;
    }

    /** The middleware: fetch the bucket, then ask it `delay` later with nothing in between. */
    method Admit(ip: Ip, at: real, delay: real) returns (ok: bool)
      requires now <= at && 0.0 <= delay
      requires forall other :: other in ips ==> ips[other].limiter < |limiters|
      modifies this
      ensures log == old(log) + [Decision(ip, at + delay, ok)]
      ensures ok ==
        Admits(config, if ip in old(ips) then old(limiters)[old(ips)[ip].limiter] else Full(config, at), at + delay)
    {
      ghost var k := |handles|;
      var limiter := GetLimiter(ip, at, delay);
      ok := Allow(limiter, at + delay, k, delay);
    }
  }
}
