/** The login rate-limit gate (scripts/admin-http.py): one bucket of recent attempts per
    address, pruned on use and swept when there are too many buckets. Times are reals. */
module LoginGate {
  datatype Config = Config(maxAttempts: nat, window: nat, sweepAt: nat)

  /** A deque with maxlen 0 cannot hold the attempt it is asked to charge. */
  predicate ValidConfig(c: Config) { c.maxAttempts >= 1 }

  type Buckets = map<string, seq<real>>

  function Bucket(bs: Buckets, ip: string): seq<real> { if ip in bs then bs[ip] else [] }

  /** How many attempts at the front are older than the cutoff. */
  function Stale(s: seq<real>, cutoff: real): (k: nat)
    ensures k <= |s| && (forall i | 0 <= i < k :: s[i] < cutoff) && (k < |s| ==> s[k] >= cutoff)
  {
    if s == [] || s[0] >= cutoff then 0 else 1 + Stale(s[1..], cutoff)
  }

  function Pruned(s: seq<real>, cutoff: real): seq<real> { s[Stale(s, cutoff)..] }

  predicate Expired(s: seq<real>, cutoff: real) { s == [] || s[|s| - 1] < cutoff }

  function Swept(bs: Buckets, cutoff: real): Buckets { map ip | ip in bs && !Expired(bs[ip], cutoff) :: bs[ip] }

  /** Appending to a deque that keeps at most n elements. */
  function Append(s: seq<real>, t: real, n: nat): seq<real>
    requires n >= 1
  {
    if |s| < n then s + [t] else s[|s| - n + 1..] + [t]
  }

  /** Seconds until the oldest attempt leaves the window. */
  function RetryAfter(oldest: real, window: nat, now: real): int {
    var wait := Truncate(oldest + window as real - now) + 1;
    if wait < 1 then 1 else wait
  }

  /** int() drops the fraction. */
  function Truncate(x: real): int { if x >= 0.0 then x.Floor else -((-x).Floor) }

  /** The buckets an attempt finds: swept first when there are too many. */
  function Ready(c: Config, bs: Buckets, now: real): Buckets {
    if |bs| > c.sweepAt then Swept(bs, now - c.window as real) else bs
  }

  /** One attempt: the buckets afterwards, and 0 or the seconds to wait. */
  function Attempt(c: Config, bs: Buckets, ip: string, now: real): (Buckets, int)
    requires ValidConfig(c)
  {
    var cutoff := now - c.window as real;
    var swept := Ready(c, bs, now);
    var bucket := Pruned(Bucket(swept, ip), cutoff);
    if |bucket| >= c.maxAttempts then (swept[ip := bucket], RetryAfter(bucket[0], c.window, now))
    else (swept[ip := Append(bucket, now, c.maxAttempts)], 0)
  }

  /** Attempts leave the front of the bucket while they are older than the cutoff. */
  method PopStale(whole: seq<real>, cutoff: real) returns (bucket: seq<real>)
    ensures bucket == Pruned(whole, cutoff)
  {
    bucket := whole;
    while bucket != [] && bucket[0] < cutoff
      invariant Pruned(bucket, cutoff) == Pruned(whole, cutoff)
      decreases |bucket|
    {
      bucket := bucket[1..];
    }
  }

  class Gate {
    const config: Config
    var attempts: Buckets

    constructor (config: Config)
      requires ValidConfig(config)
      ensures this.config == config && attempts == map[]
    {
      this.config := config;
      attempts := map[];
    }

    method Sweep(now: real)
      modifies this
      ensures attempts == Swept(old(attempts), now - config.window as real)
    {
      var cutoff := now - config.window as real;
      var stale := set ip | ip in attempts && Expired(attempts[ip], cutoff);
      var todo := stale;
      while todo != {}
        invariant todo <= stale
        invariant attempts == map ip | ip in old(attempts) && ip !in stale - todo :: old(attempts)[ip]
      {
        var ip :| ip in todo;
        attempts := attempts - {ip};
        todo := todo - {ip};
      }
    }

    /** Consume one attempt, or say how long to wait. */
    method LoginAttemptGate(ip: string, now: real) returns (wait: int)
      requires ValidConfig(config)
      modifies this
      ensures (attempts, wait) == Attempt(config, old(attempts), ip, now)
    {
      hide Swept, Append, RetryAfter, Pruned, Truncate;
      if |attempts| > config.sweepAt {
        Sweep(now);
      }
      var bucket := PopStale(Bucket(attempts, ip), now - config.window as real);
      if |bucket| >= config.maxAttempts {
        attempts := attempts[ip := bucket];
        return RetryAfter(bucket[0], config.window, now);
      }
      attempts := attempts[ip := Append(bucket, now, config.maxAttempts)];
      return 0;
    }

    method ClearLoginAttempts(ip: string)
      modifies this
      ensures attempts == old(attempts) - {ip}
    {
      attempts := attempts - {ip};
    }
  }
}
