/** The gate over whole runs: pruning and sweeping never change an answer, no window
    holds more than the quota, and the time to wait is exact. */
module LoginGateRuns {
  import opened LoginGate

  datatype Event = Try(ip: string, now: real) | Clear(ip: string)

  /** The gate, and every attempt it let through since the address was last cleared. */
  datatype State = State(buckets: Buckets, allowed: Buckets, clock: real, answers: seq<int>)

  function Step(c: Config, s: State, e: Event): State
    requires ValidConfig(c)
  {
    match e
    case Try(ip, now) =>
      var (buckets, wait) := Attempt(c, s.buckets, ip, now);
      State(buckets, if wait == 0 then s.allowed[ip := Bucket(s.allowed, ip) + [now]] else s.allowed,
            now, s.answers + [wait])
    case Clear(ip) => s.(buckets := s.buckets - {ip}, allowed := s.allowed - {ip})
  }

  /** The clock never runs backwards. */
  predicate Timely(clock: real, es: seq<Event>)
    decreases es
  {
    es == [] || match es[0]
                case Try(_, now) => clock <= now && Timely(now, es[1..])
                case Clear(_) => Timely(clock, es[1..])
  }

  function Run(c: Config, s: State, es: seq<Event>): State
    requires ValidConfig(c)
    decreases es
  {
    if es == [] then s else Run(c, Step(c, s, es[0]), es[1..])
  }

  // ---------------------------------------------------------------- pruning

  predicate Sorted(s: seq<real>) { forall i, j | 0 <= i <= j < |s| :: s[i] <= s[j] }

  predicate UpTo(s: seq<real>, now: real) { forall i | 0 <= i < |s| :: s[i] <= now }

  lemma PrunedUnique(s: seq<real>, cutoff: real, k: nat)
    requires k <= |s| && (forall i | 0 <= i < k :: s[i] < cutoff) && (k < |s| ==> s[k] >= cutoff)
    ensures Pruned(s, cutoff) == s[k..]
  {
  }

  lemma PrunedTwice(s: seq<real>, a: real, b: real)
    requires a <= b
    ensures Pruned(Pruned(s, a), b) == Pruned(s, b)
  {
    var k := Stale(s, a);
    var t := s[k..];
    var j := Stale(t, b);
    forall i | 0 <= i < k + j ensures s[i] < b { assert k <= i ==> s[i] == t[i - k]; }
    assert k + j < |s| ==> s[k + j] == t[j];
    PrunedUnique(s, b, k + j);
    assert t[j..] == s[k + j..];
  }

  lemma PrunedAppend(s: seq<real>, cutoff: real, t: real)
    requires t >= cutoff
    ensures Pruned(s + [t], cutoff) == Pruned(s, cutoff) + [t]
  {
    var k := Stale(s, cutoff);
    PrunedUnique(s + [t], cutoff, k);
    assert (s + [t])[k..] == s[k..] + [t];
  }

  lemma ExpiredIsStale(s: seq<real>, cutoff: real)
    requires Sorted(s)
    ensures Expired(s, cutoff) <==> Pruned(s, cutoff) == []
  {
    var k := Stale(s, cutoff);
    if Expired(s, cutoff) { PrunedUnique(s, cutoff, |s|); }
  }

  // -------------------------------------------------------------- refinement

  /** The bucket forgets nothing that still counts. */
  predicate Agrees(c: Config, bucket: seq<real>, allowed: seq<real>, now: real) {
    && Sorted(bucket) && Sorted(allowed) && UpTo(bucket, now) && UpTo(allowed, now)
    && |bucket| <= c.maxAttempts
    && Pruned(bucket, now - c.window as real) == Pruned(allowed, now - c.window as real)
  }

  ghost predicate Inv(c: Config, s: State) {
    forall ip :: Agrees(c, Bucket(s.buckets, ip), Bucket(s.allowed, ip), s.clock)
  }

  lemma Later(c: Config, bucket: seq<real>, allowed: seq<real>, before: real, now: real)
    requires Agrees(c, bucket, allowed, before) && before <= now
    ensures Agrees(c, bucket, allowed, now)
  {
    hide Sorted, Pruned;
    var w := c.window as real;
    PrunedTwice(bucket, before - w, now - w);
    PrunedTwice(allowed, before - w, now - w);
  }

  lemma SweptAgrees(c: Config, bs: Buckets, ip: string, allowed: seq<real>, now: real)
    requires Agrees(c, Bucket(bs, ip), allowed, now)
    ensures Agrees(c, Bucket(Swept(bs, now - c.window as real), ip), allowed, now)
  {
    ExpiredIsStale(Bucket(bs, ip), now - c.window as real);
  }

  /** The number of attempts in the closed window that ends now. */
  function Recent(s: seq<real>, cutoff: real): nat {
    if s == [] then 0 else (if s[|s| - 1] >= cutoff then 1 else 0) + Recent(s[..|s| - 1], cutoff)
  }

  lemma {:induction false} RecentIsPruned(s: seq<real>, cutoff: real)
    requires Sorted(s)
    ensures Recent(s, cutoff) == |Pruned(s, cutoff)|
    decreases |s|
  {
    if s != [] {
      var front, last := s[..|s| - 1], s[|s| - 1];
      RecentIsPruned(front, cutoff);
      assert s == front + [last];
      if last >= cutoff {
        PrunedAppend(front, cutoff, last);
      } else {
        PrunedUnique(s, cutoff, |s|);
        PrunedUnique(front, cutoff, |front|);
      }
    }
  }

  /** An answer depends on nothing but the attempts allowed in the last window: whatever
      was pruned or swept, an attempt passes exactly when fewer than the quota remain. */
  lemma AnswerIsUnswept(c: Config, s: State, ip: string, now: real)
    requires ValidConfig(c) && Inv(c, s) && s.clock <= now
    ensures Attempt(c, s.buckets, ip, now).1 == 0
            <==> Recent(Bucket(s.allowed, ip), now - c.window as real) < c.maxAttempts
  {
    hide Agrees, Ready, Pruned, Append, RetryAfter, Recent, Inv;
    AllReady(c, s, now);
    var bucket := Bucket(Ready(c, s.buckets, now), ip);
    Charged(c, bucket, Bucket(s.allowed, ip), now);
    WaitIsPositive(Pruned(bucket, now - c.window as real), c.window, now);
  }

  lemma TryKeepsInv(c: Config, s: State, ip: string, now: real)
    requires ValidConfig(c) && Inv(c, s) && s.clock <= now
    ensures Inv(c, Step(c, s, Try(ip, now)))
  {
    hide Agrees, Ready, Pruned, Append, RetryAfter, Recent;
    AllReady(c, s, now);
    var bucket := Bucket(Ready(c, s.buckets, now), ip);
    Charged(c, bucket, Bucket(s.allowed, ip), now);
    WaitIsPositive(Pruned(bucket, now - c.window as real), c.window, now);
    var after := Step(c, s, Try(ip, now));
    forall other ensures Agrees(c, Bucket(after.buckets, other), Bucket(after.allowed, other), now) {
      assert Agrees(c, Bucket(Ready(c, s.buckets, now), other), Bucket(s.allowed, other), now);
    }
  }

  /** An attempt that passes found room in the unswept history. */
  lemma PassedHadRoom(c: Config, s: State, ip: string, now: real)
    requires ValidConfig(c) && Inv(c, s) && s.clock <= now
    ensures var room := |Pruned(Bucket(s.allowed, ip), now - c.window as real)| < c.maxAttempts;
            Attempt(c, s.buckets, ip, now).1 == 0 <==> room
  {
    AnswerIsUnswept(c, s, ip, now);
    assert Agrees(c, Bucket(s.buckets, ip), Bucket(s.allowed, ip), s.clock);
    RecentIsPruned(Bucket(s.allowed, ip), now - c.window as real);
    hide Attempt, Inv, Sorted, UpTo, Pruned, Recent;
  }

  lemma WaitIsPositive(s: seq<real>, window: nat, now: real)
    ensures s != [] ==> RetryAfter(s[0], window, now) >= 1
  {
  }

  lemma AllReady(c: Config, s: State, now: real)
    requires Inv(c, s) && s.clock <= now
    ensures forall ip :: Agrees(c, Bucket(Ready(c, s.buckets, now), ip), Bucket(s.allowed, ip), now)
  {
    hide Agrees, Swept;
    forall ip ensures Agrees(c, Bucket(Ready(c, s.buckets, now), ip), Bucket(s.allowed, ip), now) {
      Later(c, Bucket(s.buckets, ip), Bucket(s.allowed, ip), s.clock, now);
      SweptAgrees(c, s.buckets, ip, Bucket(s.allowed, ip), now);
    }
  }

  lemma Charged(c: Config, bucket: seq<real>, allowed: seq<real>, now: real)
    requires ValidConfig(c) && Agrees(c, bucket, allowed, now)
    ensures var pruned := Pruned(bucket, now - c.window as real);
            && Agrees(c, pruned, allowed, now) && |pruned| == Recent(allowed, now - c.window as real)
            && (|pruned| < c.maxAttempts ==> Agrees(c, Append(pruned, now, c.maxAttempts), allowed + [now], now))
  {
    hide Sorted, UpTo, Pruned, Recent;
    var cutoff := now - c.window as real;
    var pruned := Pruned(bucket, cutoff);
    PrunedTail(bucket, cutoff, now);
    RecentIsPruned(allowed, cutoff);
    PrunedTwice(bucket, cutoff, cutoff);
    PrunedAppend(pruned, cutoff, now);
    PrunedAppend(allowed, cutoff, now);
    SortedPlus(pruned, now);
    SortedPlus(allowed, now);
  }

  lemma PrunedTail(s: seq<real>, cutoff: real, now: real)
    requires Sorted(s) && UpTo(s, now)
    ensures Sorted(Pruned(s, cutoff)) && UpTo(Pruned(s, cutoff), now) && |Pruned(s, cutoff)| <= |s|
  {
  }

  lemma SortedPlus(s: seq<real>, now: real)
    requires Sorted(s) && UpTo(s, now)
    ensures Sorted(s + [now]) && UpTo(s + [now], now)
  {
  }

  const START := State(map[], map[], 0.0, [])

  lemma {:induction false} RunKeepsInv(c: Config, s: State, es: seq<Event>)
    requires ValidConfig(c) && Inv(c, s) && Timely(s.clock, es)
    ensures Inv(c, Run(c, s, es))
    decreases es
  {
    if es != [] {
      match es[0]
      case Try(ip, now) =>
        TryKeepsInv(c, s, ip, now);
        RunKeepsInv(c, Step(c, s, es[0]), es[1..]);
      case Clear(ip) =>
        var next := Step(c, s, es[0]);
        forall other ensures Agrees(c, Bucket(next.buckets, other), Bucket(next.allowed, other), next.clock) {}
        RunKeepsInv(c, next, es[1..]);
    }
  }

  // ------------------------------------------------------------ the quota holds

  /** Any two attempts that are the quota apart are more than a window apart. */
  ghost predicate Spaced(c: Config, s: seq<real>) {
    forall i, j | 0 <= i && j == i + c.maxAttempts && j < |s| :: s[j] - s[i] > c.window as real
  }

  function InWindow(s: seq<real>, from: real, to: real): nat {
    if s == [] then 0 else (if from <= s[|s| - 1] <= to then 1 else 0) + InWindow(s[..|s| - 1], from, to)
  }

  lemma {:induction false} FewInWindow(s: seq<real>, from: real, to: real, lo: nat, hi: nat)
    requires lo <= hi && (forall i | 0 <= i < |s| && from <= s[i] <= to :: lo <= i < hi)
    ensures InWindow(s, from, to) <= if |s| <= lo then 0 else if |s| <= hi then |s| - lo else hi - lo
    decreases |s|
  {
    if s != [] {
      assert forall i | 0 <= i < |s| - 1 :: s[..|s| - 1][i] == s[i];
      FewInWindow(s[..|s| - 1], from, to, lo, hi);
    }
  }

  lemma SpacedFillsNoWindow(c: Config, s: seq<real>, from: real)
    requires ValidConfig(c) && Sorted(s) && Spaced(c, s)
    ensures InWindow(s, from, from + c.window as real) <= c.maxAttempts
  {
    var to := from + c.window as real;
    var lo := Stale(s, from);
    var hi := lo + c.maxAttempts;
    assert hi < |s| ==> s[hi] - s[lo] > c.window as real;
    FewInWindow(s, from, to, lo, hi);
  }

  ghost predicate AllSpaced(c: Config, s: State) { forall ip :: Spaced(c, Bucket(s.allowed, ip)) }

  lemma StepKeepsSpaced(c: Config, s: State, ip: string, now: real)
    requires ValidConfig(c) && Inv(c, s) && AllSpaced(c, s) && s.clock <= now
    ensures AllSpaced(c, Step(c, s, Try(ip, now)))
  {
    hide Attempt, Pruned, Inv, Spaced;
    PassedHadRoom(c, s, ip, now);
    var past := Bucket(s.allowed, ip);
    assert Spaced(c, past);
    if Step(c, s, Try(ip, now)).allowed != s.allowed {
      SpacedPlus(c, past, now);
      SpacedUpdate(c, s.allowed, ip, past + [now], Step(c, s, Try(ip, now)).allowed);
    }
  }

  lemma SpacedUpdate(c: Config, allowed: Buckets, ip: string, bucket: seq<real>, updated: Buckets)
    requires (forall other :: Spaced(c, Bucket(allowed, other))) && Spaced(c, bucket)
             && updated == allowed[ip := bucket]
    ensures forall other :: Spaced(c, Bucket(updated, other))
  {
    hide Spaced;
    forall other ensures Spaced(c, Bucket(updated, other)) {
      assert Spaced(c, Bucket(allowed, other));
    }
  }

  lemma SpacedPlus(c: Config, s: seq<real>, now: real)
    requires Spaced(c, s) && |Pruned(s, now - c.window as real)| < c.maxAttempts
    ensures Spaced(c, s + [now])
  {
    var k := |s| - c.maxAttempts;
    assert 0 <= k ==> k < Stale(s, now - c.window as real);
  }

  lemma {:induction false} RunKeepsSpaced(c: Config, s: State, es: seq<Event>)
    requires ValidConfig(c) && Inv(c, s) && AllSpaced(c, s) && Timely(s.clock, es)
    ensures AllSpaced(c, Run(c, s, es))
    decreases es
  {
    if es != [] {
      RunKeepsInv(c, s, [es[0]]);
      var next := Step(c, s, es[0]);
      assert Run(c, s, [es[0]]) == next;
      match es[0]
      case Try(ip, now) =>
        StepKeepsSpaced(c, s, ip, now);
        RunKeepsSpaced(c, next, es[1..]);
      case Clear(ip) =>
        forall other ensures Spaced(c, Bucket(next.allowed, other)) { assert Spaced(c, Bucket(s.allowed, other)); }
        RunKeepsSpaced(c, next, es[1..]);
    }
  }

  /** Over every run, no window of the configured length, wherever it starts, holds more
      allowed attempts of one address than the quota, since the address was last cleared. */
  lemma QuotaHolds(c: Config, es: seq<Event>, ip: string, from: real)
    requires ValidConfig(c) && Timely(0.0, es)
    ensures InWindow(Bucket(Run(c, START, es).allowed, ip), from, from + c.window as real) <= c.maxAttempts
  {
    RunKeepsInv(c, START, es);
    RunKeepsSpaced(c, START, es);
    var s := Run(c, START, es);
    assert Agrees(c, Bucket(s.buckets, ip), Bucket(s.allowed, ip), s.clock) && Spaced(c, Bucket(s.allowed, ip));
    SpacedFillsNoWindow(c, Bucket(s.allowed, ip), from);
  }

  // ------------------------------------------------------------- time to wait

  /** When the address was refused: the window frees a slot as soon as its oldest
      recent attempt is out. */
  function Oldest(c: Config, s: State, ip: string, now: real): real
    requires |Pruned(Bucket(s.allowed, ip), now - c.window as real)| >= 1
  {
    Pruned(Bucket(s.allowed, ip), now - c.window as real)[0]
  }

  lemma RefusedWait(c: Config, s: State, ip: string, now: real)
    requires ValidConfig(c) && Inv(c, s) && s.clock <= now && Attempt(c, s.buckets, ip, now).1 != 0
    ensures |Pruned(Bucket(s.allowed, ip), now - c.window as real)| == c.maxAttempts
    ensures Attempt(c, s.buckets, ip, now).1 == (Oldest(c, s, ip, now) + c.window as real - now).Floor + 1
  {
    AllReady(c, s, now);
    var bucket := Bucket(Ready(c, s.buckets, now), ip);
    assert Agrees(c, bucket, Bucket(s.allowed, ip), now);
    hide Ready, Sorted, UpTo, Inv, RetryAfter;
    FloorOfWait(Oldest(c, s, ip, now), c.window, now);
  }

  lemma FloorOfWait(oldest: real, window: nat, now: real)
    requires oldest >= now - window as real
    ensures RetryAfter(oldest, window, now) == (oldest + window as real - now).Floor + 1 >= 1
  {
  }

  /** The clock after the events. */
  function ClockAfter(clock: real, es: seq<Event>): real
    decreases es
  {
    if es == [] then clock
    else ClockAfter(match es[0] case Try(_, now) => now case Clear(_) => clock, es[1..])
  }

  /** Between the refusal and the limit the address only tries, and is not cleared. */
  predicate Waits(es: seq<Event>, ip: string, limit: real) {
    forall e | e in es && e.ip == ip :: e.Try? && e.now <= limit
  }

  /** As long as the oldest attempt still counts, every try is refused and none is charged. */
  lemma {:induction false} RefusedUntil(c: Config, s: State, es: seq<Event>, ip: string, oldest: real)
    requires ValidConfig(c) && Inv(c, s) && Timely(s.clock, es)
    requires Full(c, Bucket(s.allowed, ip), oldest) && Waits(es, ip, oldest + c.window as real)
    ensures Bucket(Run(c, s, es).allowed, ip) == Bucket(s.allowed, ip)
    ensures Inv(c, Run(c, s, es)) && Run(c, s, es).clock == ClockAfter(s.clock, es)
    decreases es
  {
    if es != [] {
      var next := Step(c, s, es[0]);
      RunKeepsInv(c, s, [es[0]]);
      assert Run(c, s, [es[0]]) == next;
      if es[0].Try? && es[0].ip == ip { FullRefuses(c, s, ip, es[0].now, oldest); }
      RefusedUntil(c, next, es[1..], ip, oldest);
    }
  }

  /** The last attempts, a whole quota of them, are all from the given time on. */
  predicate Full(c: Config, allowed: seq<real>, oldest: real) {
    |allowed| >= c.maxAttempts && c.maxAttempts >= 1 && allowed[|allowed| - c.maxAttempts] == oldest
  }

  lemma FullRefuses(c: Config, s: State, ip: string, now: real, oldest: real)
    requires ValidConfig(c) && Inv(c, s) && s.clock <= now && Full(c, Bucket(s.allowed, ip), oldest)
    ensures Attempt(c, s.buckets, ip, now).1 == 0 <==> oldest + c.window as real < now
  {
    PassedHadRoom(c, s, ip, now);
    assert Agrees(c, Bucket(s.buckets, ip), Bucket(s.allowed, ip), s.clock);
    OldestDecides(c, Bucket(s.allowed, ip), oldest, now - c.window as real);
    hide Attempt, Inv, Agrees, Pruned, Full;
  }

  lemma OldestDecides(c: Config, allowed: seq<real>, oldest: real, cutoff: real)
    requires Sorted(allowed) && Full(c, allowed, oldest)
    ensures |Pruned(allowed, cutoff)| < c.maxAttempts <==> oldest < cutoff
  {
    var k := |allowed| - c.maxAttempts;
    var stale := Stale(allowed, cutoff);
    assert stale <= k ==> allowed[stale] <= allowed[k];
  }

  /** The time to wait is exact, whatever other addresses do meanwhile and however often
      this one is refused again: a try after waiting it out passes, and a try at least a
      second earlier is refused. */
  lemma RetryAfterIsExact(c: Config, s: State, ip: string, now: real, es: seq<Event>, later: real)
    requires ValidConfig(c) && Inv(c, s) && s.clock <= now && Attempt(c, s.buckets, ip, now).1 != 0
    requires Timely(now, es) && ClockAfter(now, es) <= later
    requires var wait := Attempt(c, s.buckets, ip, now).1; Waits(es, ip, now + (wait - 1) as real)
    ensures var wait := Attempt(c, s.buckets, ip, now).1;
            var waited := Run(c, Step(c, s, Try(ip, now)), es);
            && wait >= 1
            && (later >= now + wait as real ==> Attempt(c, waited.buckets, ip, later).1 == 0)
            && (later <= now + (wait - 1) as real ==> Attempt(c, waited.buckets, ip, later).1 != 0)
  {
    var wait := Attempt(c, s.buckets, ip, now).1;
    var next := Step(c, s, Try(ip, now));
    TryKeepsInv(c, s, ip, now);
    RefusedWait(c, s, ip, now);
    var allowed := Bucket(s.allowed, ip);
    var oldest := Oldest(c, s, ip, now);
    assert Full(c, allowed, oldest);
    RefusedUntil(c, next, es, ip, oldest);
    FullRefuses(c, Run(c, next, es), ip, later, oldest);
  }

  // ------------------------------------------------------------- what is stored

  /** A cleared address starts afresh: its next attempt passes, whatever it tried before, and
      no other address is touched. */
  lemma ClearForgets(c: Config, s: State, ip: string, other: string, now: real)
    requires ValidConfig(c)
    ensures var after := Step(c, s, Clear(ip));
            && Attempt(c, after.buckets, ip, now).1 == 0
            && (other != ip ==> Bucket(after.buckets, other) == Bucket(s.buckets, other))
  {
    hide Swept, Append, RetryAfter;
    SweptBucket(s.buckets - {ip}, now - c.window as real, ip);
  }

  lemma SweptBucket(bs: Buckets, cutoff: real, ip: string)
    requires ip !in bs
    ensures ip !in Swept(bs, cutoff)
  {
  }

  /** An attempt touches its own bucket alone: the stored attempts that still count, and itself
      when it passes. With too many buckets stored, the others stay only if their last attempt
      still counts; otherwise they stay as they are. */
  lemma AttemptStores(c: Config, s: State, ip: string, now: real)
    requires ValidConfig(c) && Inv(c, s) && s.clock <= now
    ensures var (after, wait), cutoff := Attempt(c, s.buckets, ip, now), now - c.window as real;
            && Bucket(after, ip) == Counting(Bucket(s.buckets, ip), cutoff) + (if wait == 0 then [now] else [])
            && (forall other | other != ip ::
                  (other in after <==>
                   && other in s.buckets
                   && (|s.buckets| > c.sweepAt ==> s.buckets[other] != []
                                                   && s.buckets[other][|s.buckets[other]| - 1] >= cutoff))
                  && (other in after ==> after[other] == s.buckets[other]))
  {
    hide Agrees, RetryAfter, Inv, Counting, Pruned, Swept, Append;
    OwnStored(c, s, ip, now);
    var ready := Ready(c, s.buckets, now);
    forall other | other != ip
      ensures other in Attempt(c, s.buckets, ip, now).0 <==> other in ready
      ensures other in ready ==> Attempt(c, s.buckets, ip, now).0[other] == ready[other]
    {
    }
    ReadyKeeps(c, s.buckets, now);
  }

  lemma ReadyKeeps(c: Config, bs: Buckets, now: real)
    ensures var ready, cutoff := Ready(c, bs, now), now - c.window as real;
            forall ip ::
              (ip in ready <==> ip in bs && (|bs| > c.sweepAt ==> bs[ip] != [] && bs[ip][|bs[ip]| - 1] >= cutoff))
              && (ip in ready ==> ready[ip] == bs[ip])
  {
  }

  lemma OwnStored(c: Config, s: State, ip: string, now: real)
    requires ValidConfig(c) && Inv(c, s) && s.clock <= now
    ensures var (after, wait) := Attempt(c, s.buckets, ip, now);
            Bucket(after, ip) == Counting(Bucket(s.buckets, ip), now - c.window as real)
                                 + if wait == 0 then [now] else []
  {
    hide RetryAfter, Inv, Counting, Pruned, Ready;
    var cutoff := now - c.window as real;
    var bucket := Pruned(Bucket(Ready(c, s.buckets, now), ip), cutoff);
    StoredStillCounts(c, s, ip, now);
    WaitIsPositive(bucket, c.window, now);
    assert bucket + [] == bucket;
  }

  /** The attempts from the cutoff on, in order. */
  function Counting(s: seq<real>, cutoff: real): seq<real> {
    if s == [] then []
    else Counting(s[..|s| - 1], cutoff) + if s[|s| - 1] >= cutoff then [s[|s| - 1]] else []
  }

  lemma {:induction false} CountingIsPruned(s: seq<real>, cutoff: real)
    requires Sorted(s)
    ensures Counting(s, cutoff) == Pruned(s, cutoff)
    decreases |s|
  {
    if s != [] {
      var front, last := s[..|s| - 1], s[|s| - 1];
      CountingIsPruned(front, cutoff);
      assert s == front + [last];
      if last >= cutoff {
        PrunedAppend(front, cutoff, last);
      } else {
        PrunedUnique(s, cutoff, |s|);
        PrunedUnique(front, cutoff, |front|);
      }
    }
  }

  lemma StoredStillCounts(c: Config, s: State, ip: string, now: real)
    requires ValidConfig(c) && Inv(c, s) && s.clock <= now
    ensures var cutoff := now - c.window as real;
            Pruned(Bucket(Ready(c, s.buckets, now), ip), cutoff) == Counting(Bucket(s.buckets, ip), cutoff)
  {
    hide Counting, Pruned, Expired, Sorted;
    var cutoff, bucket := now - c.window as real, Bucket(s.buckets, ip);
    StoredIsSorted(c, s, ip);
    CountingIsPruned(bucket, cutoff);
    ExpiredIsStale(bucket, cutoff);
    PrunedNothing(cutoff);
  }

  lemma PrunedNothing(cutoff: real)
    ensures Pruned([], cutoff) == []
  {
  }

  lemma StoredIsSorted(c: Config, s: State, ip: string)
    requires Inv(c, s)
    ensures Sorted(Bucket(s.buckets, ip))
  {
    hide Sorted, Pruned, UpTo;
    assert Agrees(c, Bucket(s.buckets, ip), Bucket(s.allowed, ip), s.clock);
  }
}
