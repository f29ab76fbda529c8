/** The chat-command cooldown ledger (CooldownLedger in scripts/admin_chatcmd.py), which
    is pruned whenever it is saved and rebuilt from what was saved. Times are reals. */
module Cooldown {
  type Stamps = map<string, real>

  function KeyOf(player: string, command: string): string { player + "|" + command }

  predicate Ready(last: Stamps, cooldown: nat, key: string, ts: real) {
    key !in last || ts - last[key] >= cooldown as real
  }

  function Pruned(last: Stamps, cutoff: real): Stamps { map k | k in last && last[k] > cutoff :: last[k] }

  function Max(a: real, b: real): real { if a < b then b else a }

  class CooldownLedger {
    const cooldown: nat
    var last: Stamps
    var now: real

    /** A new ledger, or one rebuilt from a saved state. */
    constructor (cooldownSecs: int, state: Stamps)
      ensures cooldown == (if cooldownSecs < 1 then 1 else cooldownSecs) && last == state && now == 0.0
    {
      cooldown := if cooldownSecs < 1 then 1 else cooldownSecs;
      last := state;
      now := 0.0;
    }

    /** Check without stamping. */
    method IsReady(player: string, command: string, ts: real) returns (ready: bool)
      modifies this`now
      ensures now == Max(old(now), ts) && ready == Ready(last, cooldown, KeyOf(player, command), ts)
    {
      now := Max(now, ts);
      var key := KeyOf(player, command);
      ready := key !in last || ts - last[key] >= cooldown as real;
    }

    method Allow(player: string, command: string, ts: real) returns (allowed: bool)
      modifies this`now, this`last
      ensures allowed == Ready(old(last), cooldown, KeyOf(player, command), ts) && now == Max(old(now), ts)
      ensures last == if allowed then old(last)[KeyOf(player, command) := ts] else old(last)
    {
      allowed := IsReady(player, command, ts);
      if allowed {
        last := last[KeyOf(player, command) := ts];
      }
    }

    method Stamp(player: string, command: string, ts: real)
      modifies this`now, this`last
      ensures now == Max(old(now), ts) && last == old(last)[KeyOf(player, command) := ts]
    {
      now := Max(now, ts);
      last := last[KeyOf(player, command) := ts];
    }

    /** What is saved: the stamps that can still matter. */
    method State() returns (state: Stamps)
      ensures state == Pruned(last, now - cooldown as real)
    {
      var cutoff := now - cooldown as real;
      state := map k | k in last && last[k] > cutoff :: last[k];
    }
  }

  // -------------------------------------------------------------------- runs

  /** Asking, allowing, stamping, and saving the ledger to rebuild it later. */
  datatype Event = Ask(key: string, ts: real) | Permit(key: string, ts: real) | Mark(key: string, ts: real) | Restart

  /** The saved and rebuilt ledger beside one that is never pruned, and their answers. */
  datatype Pair = Pair(last: Stamps, now: real, full: Stamps, agreed: bool)

  function Step(c: nat, p: Pair, e: Event): Pair {
    match e
    case Ask(key, ts) => p.(now := Max(p.now, ts), agreed := p.agreed
                            && Ready(p.last, c, key, ts) == Ready(p.full, c, key, ts))
    case Permit(key, ts) =>
      var a, b := Ready(p.last, c, key, ts), Ready(p.full, c, key, ts);
      Pair(if a then p.last[key := ts] else p.last, Max(p.now, ts),
           if b then p.full[key := ts] else p.full, p.agreed && a == b)
    case Mark(key, ts) => p.(last := p.last[key := ts], now := Max(p.now, ts), full := p.full[key := ts])
    case Restart => p.(last := Pruned(p.last, p.now - c as real), now := 0.0)
  }

  /** A run from the stamps the first ledger was built from. */
  function Run(c: nat, state: Stamps, es: seq<Event>): Pair {
    if es == [] then Pair(state, 0.0, state, true) else Step(c, Run(c, state, es[..|es| - 1]), es[|es| - 1])
  }

  // ----------------------------------------------------------- times of a run

  /** What of an event does not depend on players and commands. */
  datatype Moment = At(ts: real) | Save

  function MomentOf(e: Event): Moment { if e.Restart? then Save else At(e.ts) }

  predicate RunsAt(es: seq<Event>, ms: seq<Moment>) {
    |es| == |ms| && forall i | 0 <= i < |es| :: MomentOf(es[i]) == ms[i]
  }

  /** The latest time since the last save. */
  function Latest(ms: seq<Moment>): real {
    if ms == [] then 0.0
    else
      match ms[|ms| - 1]
      case Save => 0.0
      case At(ts) => Max(Latest(ms[..|ms| - 1]), ts)
  }

  /** Some stamp may hold the time v before moment n. */
  predicate MayStamp(state: Stamps, ms: seq<Moment>, n: nat, v: real)
    requires n <= |ms|
  {
    v in state.Values || exists h | 0 <= h < n :: ms[h] == At(v)
  }

  /** The save at i drops a stamp of time v. */
  predicate Drops(c: nat, state: Stamps, ms: seq<Moment>, v: real, i: nat) {
    i < |ms| && ms[i].Save? && MayStamp(state, ms, i, v) && v <= Latest(ms[..i]) - c as real
  }

  /** A stamp dropped at a save is still younger than the cooldown at a later moment. */
  ghost predicate Missed(c: nat, state: Stamps, ms: seq<Moment>) {
    exists v, i, j | 0 <= i < j < |ms| :: Drops(c, state, ms, v, i) && ms[j].At? && ms[j].ts - v < c as real
  }

  ghost predicate DroppedBefore(c: nat, state: Stamps, ms: seq<Moment>, n: nat, v: real)
    requires n <= |ms|
  {
    exists i | 0 <= i < n :: Drops(c, state, ms, v, i)
  }

  /** While the answers agree, the pruned ledger lacks only what some save dropped. */
  ghost predicate Inv(c: nat, state: Stamps, ms: seq<Moment>, n: nat, p: Pair)
    requires n <= |ms|
  {
    && p.now == Latest(ms[..n])
    && (forall k | k in p.last :: k in p.full && p.last[k] == p.full[k])
    && (forall k | k in p.full :: MayStamp(state, ms, n, p.full[k]))
    && (forall k | k in p.full && k !in p.last :: DroppedBefore(c, state, ms, n, p.full[k]))
  }

  lemma StepKeepsInv(c: nat, state: Stamps, ms: seq<Moment>, n: nat, p: Pair, e: Event)
    requires n < |ms| && MomentOf(e) == ms[n] && Inv(c, state, ms, n, p) && Step(c, p, e).agreed
    ensures Inv(c, state, ms, n + 1, Step(c, p, e))
  {
    hide DroppedBefore;
    var after := Step(c, p, e);
    assert ms[..n + 1][..n] == ms[..n];
    forall k | k in after.full ensures MayStamp(state, ms, n + 1, after.full[k]) {
      if !(k in p.full && after.full[k] == p.full[k]) { assert ms[n] == At(after.full[k]); }
    }
    forall k | k in after.full && k !in after.last ensures DroppedBefore(c, state, ms, n + 1, after.full[k]) {
      assert after.full[k] == p.full[k];
      StillDropped(c, state, ms, n, p.full[k]);
      if k in p.last { assert Drops(c, state, ms, p.full[k], n); }
    }
  }

  lemma StillDropped(c: nat, state: Stamps, ms: seq<Moment>, n: nat, v: real)
    requires n < |ms|
    ensures DroppedBefore(c, state, ms, n, v) || Drops(c, state, ms, v, n) <==> DroppedBefore(c, state, ms, n + 1, v)
  {
  }

  lemma DisagreesOnDropped(c: nat, state: Stamps, ms: seq<Moment>, n: nat, p: Pair, e: Event)
    requires n < |ms| && MomentOf(e) == ms[n] && Inv(c, state, ms, n, p) && p.agreed
    ensures !Step(c, p, e).agreed ==> Missed(c, state, ms)
  {
    if !Step(c, p, e).agreed {
      assert e.key in p.full && e.key !in p.last && e.ts - p.full[e.key] < c as real;
      var i :| 0 <= i < n && Drops(c, state, ms, p.full[e.key], i);
    }
  }

  /** Ledgers that answer alike as long as no dropped stamp is missed. */
  lemma {:induction false} UnmissedAgrees(c: nat, state: Stamps, es: seq<Event>, ms: seq<Moment>, n: nat)
    requires RunsAt(es, ms) && n <= |ms| && !Missed(c, state, ms)
    ensures var p := Run(c, state, es[..n]); p.agreed && Inv(c, state, ms, n, p)
    decreases n
  {
    if n > 0 {
      var p, e := Run(c, state, es[..n - 1]), es[n - 1];
      assert es[..n][..n - 1] == es[..n - 1];
      UnmissedAgrees(c, state, es, ms, n - 1);
      DisagreesOnDropped(c, state, ms, n - 1, p, e);
      StepKeepsInv(c, state, ms, n - 1, p, e);
    }
  }

  /** One player uses one command: a stamp at moment h, checks at all others. */
  function Witness(ms: seq<Moment>, h: int, key: string): seq<Event> {
    seq(|ms|, i requires 0 <= i < |ms| =>
      match ms[i]
      case Save => Restart
      case At(ts) => if i == h then Mark(key, ts) else Ask(key, ts))
  }

  lemma {:induction false} WitnessRuns(c: nat, state: Stamps, ms: seq<Moment>, h: int, key: string, v: real, i: nat,
                                       n: nat)
    requires Drops(c, state, ms, v, i) && h < i && n <= |ms|
    requires if h < 0 then key in state && state[key] == v else ms[h] == At(v)
    ensures var p := Run(c, state, Witness(ms, h, key)[..n]);
            && p.now == Latest(ms[..n]) && (h < n ==> key in p.full && p.full[key] == v)
            && (key in p.last ==> key in p.full && p.last[key] == p.full[key])
            && (i < n ==> key !in p.last)
    decreases n
  {
    if n > 0 {
      var es := Witness(ms, h, key);
      assert es[..n][..n - 1] == es[..n - 1] && ms[..n][..n - 1] == ms[..n - 1];
      WitnessRuns(c, state, ms, h, key, v, i, n - 1);
      assert es[n - 1] == if ms[n - 1].Save? then Restart
                          else if n - 1 == h then Mark(key, ms[n - 1].ts) else Ask(key, ms[n - 1].ts);
    }
  }

  lemma {:induction false} NeverAgreesAgain(c: nat, state: Stamps, es: seq<Event>, n: nat)
    requires n <= |es| && !Run(c, state, es[..n]).agreed
    ensures !Run(c, state, es).agreed
    decreases |es| - n
  {
    if n == |es| {
      assert es[..n] == es;
    } else {
      assert es[..n + 1][..n] == es[..n];
      NeverAgreesAgain(c, state, es, n + 1);
    }
  }

  lemma MissedShows(c: nat, state: Stamps, ms: seq<Moment>)
    requires Missed(c, state, ms)
    ensures exists es :: RunsAt(es, ms) && !Run(c, state, es).agreed
  {
    hide Run;
    var v, i, j :| 0 <= i < j < |ms| && Drops(c, state, ms, v, i) && ms[j].At? && ms[j].ts - v < c as real;
    var h, key := -1, "";
    if v in state.Values {
      key :| key in state && state[key] == v;
    } else {
      h :| 0 <= h < i && ms[h] == At(v);
    }
    var es := Witness(ms, h, key);
    assert RunsAt(es, ms);
    WitnessRuns(c, state, ms, h, key, v, i, j);
    WitnessDisagrees(c, state, es, j, key, v, ms[j].ts);
    NeverAgreesAgain(c, state, es, j + 1);
  }

  /** A check that only the ledger with every stamp refuses. */
  lemma WitnessDisagrees(c: nat, state: Stamps, es: seq<Event>, j: nat, key: string, v: real, ts: real)
    requires j < |es| && es[j] == Ask(key, ts) && ts - v < c as real
    requires var p := Run(c, state, es[..j]); key !in p.last && key in p.full && p.full[key] == v
    ensures !Run(c, state, es[..j + 1]).agreed
  {
    var before := es[..j];
    assert es[..j + 1][..j] == before && es[..j + 1][j] == es[j];
  }

  /** For the times of a run and of its saves: a ledger that prunes itself at every save
      can answer unlike one that keeps every stamp exactly when a save drops a stamp that
      is younger than the cooldown at a later moment. */
  lemma PruningShowsIff(c: nat, state: Stamps, ms: seq<Moment>)
    ensures (exists es :: RunsAt(es, ms) && !Run(c, state, es).agreed) <==> Missed(c, state, ms)
  {
    if Missed(c, state, ms) {
      MissedShows(c, state, ms);
    } else {
      forall es | RunsAt(es, ms) ensures Run(c, state, es).agreed {
        UnmissedAgrees(c, state, es, ms, |es|);
        assert es[..|es|] == es;
      }
    }
  }

  /** No check is made for a time before the latest one known to an earlier save. */
  predicate NeverBehindASave(ms: seq<Moment>) {
    forall i, j | 0 <= i < j < |ms| && ms[i].Save? && ms[j].At? :: Latest(ms[..i]) <= ms[j].ts
  }

  /** With time going forward it never shows, whatever was saved before; and whatever the
      saved stamps are, that is all the times must promise. */
  lemma PruningNeverShowsIff(c: nat, ms: seq<Moment>)
    ensures (forall state, es | RunsAt(es, ms) :: Run(c, state, es).agreed) <==> NeverBehindASave(ms)
  {
    if NeverBehindASave(ms) {
      forall state, es | RunsAt(es, ms) ensures Run(c, state, es).agreed { PruningShowsIff(c, state, ms); }
    } else {
      var i, j :| 0 <= i < j < |ms| && ms[i].Save? && ms[j].At? && ms[j].ts < Latest(ms[..i]);
      var v := Latest(ms[..i]) - c as real;
      var state: Stamps := map["" := v];
      assert state[""] == v && v in state.Values;
      assert Drops(c, state, ms, v, i);
      PruningShowsIff(c, state, ms);
    }
  }

  predicate Forward(ms: seq<Moment>, from: real) {
    && (forall i | 0 <= i < |ms| && ms[i].At? :: from <= ms[i].ts)
    && (forall i, j | 0 <= i < j < |ms| && ms[i].At? && ms[j].At? :: ms[i].ts <= ms[j].ts)
  }

  lemma {:induction false} LatestIsReached(ms: seq<Moment>, ts: real)
    requires 0.0 <= ts && forall i | 0 <= i < |ms| && ms[i].At? :: ms[i].ts <= ts
    ensures Latest(ms) <= ts
    decreases |ms|
  {
    if ms != [] { LatestIsReached(ms[..|ms| - 1], ts); }
  }

  /** Over every run of asks, allows, stamps and restarts with time going forward, the
      ledger that prunes itself at every save answers like one that keeps every stamp. */
  lemma PruningNeverShows(c: nat, state: Stamps, es: seq<Event>, ms: seq<Moment>)
    requires RunsAt(es, ms) && Forward(ms, 0.0)
    ensures Run(c, state, es).agreed
  {
    forall i, j | 0 <= i < j < |ms| && ms[i].Save? && ms[j].At? ensures Latest(ms[..i]) <= ms[j].ts {
      LatestIsReached(ms[..i], ms[j].ts);
    }
    PruningNeverShowsIff(c, ms);
  }

  // ----------------------------------------------------------- what is answered

  /** The last time the command was used by the player: a mark, or a permit that came no sooner
      than the cooldown after the use before it. */
  function LastUse(c: nat, state: Stamps, es: seq<Event>, key: string): (used: Stamps)
    ensures used.Keys <= {key}
  {
    if es == [] then if key in state then map[key := state[key]] else map[]
    else
      var before, e := LastUse(c, state, es[..|es| - 1], key), es[|es| - 1];
      if e.Restart? || e.Ask? || e.key != key then before
      else if e.Permit? && key in before && e.ts < before[key] + c as real then before
      else map[key := e.ts]
  }

  lemma {:induction false} FullHoldsLastUse(c: nat, state: Stamps, es: seq<Event>, key: string)
    ensures var full, used := Run(c, state, es).full, LastUse(c, state, es, key);
            (key in full <==> key in used) && (key in full ==> full[key] == used[key])
    decreases |es|
  {
    if es != [] {
      FullHoldsLastUse(c, state, es[..|es| - 1], key);
    }
  }

  /** With time going forward a command is allowed, saved and rebuilt or not, exactly when its
      player has not used it before, or last did so at least the cooldown ago. */
  lemma AllowedIff(c: nat, state: Stamps, es: seq<Event>, ms: seq<Moment>, key: string, ts: real)
    requires RunsAt(es, ms) && Forward(ms + [At(ts)], 0.0)
    ensures var used := LastUse(c, state, es, key);
            Ready(Run(c, state, es).last, c, key, ts) <==> key !in used || used[key] + c as real <= ts
  {
    FullHoldsLastUse(c, state, es, key);
    var all := es + [Ask(key, ts)];
    PruningNeverShows(c, state, all, ms + [At(ts)]);
    assert all[..|all| - 1] == es;
    hide Run;
  }

  /** With a clock that goes back it can show: a stamp dropped at a save is missed by a
      check made for an earlier moment. */
  lemma BackwardClockShows()
    ensures !Run(60, map[], [Mark("p|c", 10.0), Ask("q|c", 100.0), Restart, Ask("p|c", 20.0)]).agreed
  {
    var es := [Mark("p|c", 10.0), Ask("q|c", 100.0), Restart, Ask("p|c", 20.0)];
    assert es[..3][..2] == es[..2] && es[..2][..1] == es[..1] && es[..1][..0] == [];
    var p1 := Step(60, Run(60, map[], []), es[0]);
    assert Run(60, map[], es[..1]) == p1;
    var p2 := Step(60, p1, es[1]);
    assert Run(60, map[], es[..2]) == p2;
    var p3 := Step(60, p2, es[2]);
    assert Run(60, map[], es[..3]) == p3;
    assert "p|c" !in p3.last && p3.full["p|c"] == 10.0;
  }

  /** Players and commands do not share a stamp, as long as commands hold no bar. */
  lemma KeysAreDistinct(player: string, command: string, player2: string, command2: string)
    requires '|' !in command && '|' !in command2
    ensures KeyOf(player, command) == KeyOf(player2, command2) <==> player == player2 && command == command2
  {
    var a, b := KeyOf(player, command), KeyOf(player2, command2);
    if a == b {
      assert a[|player|] == '|' && b[|player2|] == '|';
      forall i | |player| < i < |a| ensures a[i] != '|' { assert a[i] == command[i - |player| - 1]; }
      forall i | |player2| < i < |b| ensures b[i] != '|' { assert b[i] == command2[i - |player2| - 1]; }
      assert a[..|player|] == player && b[..|player2|] == player2;
      assert a[|player| + 1..] == command && b[|player2| + 1..] == command2;
    }
  }
}
