/** What the dimension pool guarantees on one tick and over every run of ticks. */
module DimensionPoolRuns {
  import opened Wrappers
  import opened DimensionPool

  datatype Event = Event(rows: Option<seq<Dim>>, cfg: Config, now: int, ok: bool)

  function Run(es: seq<Event>): State {
    if es == [] then State(None, None, map[], None)
    else
      var e := es[|es| - 1];
      Tick(Run(es[..|es| - 1]), e.rows, e.cfg, e.now, e.ok).0
  }

  function ActionAt(es: seq<Event>, i: nat): Action
    requires i < |es|
  {
    Tick(Run(es[..i]), es[i].rows, es[i].cfg, es[i].now, es[i].ok).1
  }

  /** The clock does not run back. */
  predicate Valid(es: seq<Event>) { forall i, j | 0 <= i <= j < |es| :: es[i].now <= es[j].now }

  // ---------------------------------------------------------------- one tick

  lemma {:induction false} NextOfflineIsLeast(rows: seq<Dim>)
    ensures var r := NextOffline(rows);
            match r
            case None => OfflinePids(rows) == {}
            case Some(p) => p in OfflinePids(rows) && forall q | q in OfflinePids(rows) :: p <= q
    decreases rows
  {
    if rows != [] {
      NextOfflineIsLeast(rows[1..]);
      assert OfflinePids(rows) == (if rows[0].online then {} else {rows[0].pid}) + OfflinePids(rows[1..]);
    }
  }

  lemma {:induction false} NextReapIsGreatest(rows: seq<Dim>, idle: map<Pid, int>, now: int, drain: int)
    ensures var r := NextReap(rows, idle, now, drain);
            match r
            case None => forall d | d in rows :: d.pid in idle ==> now - idle[d.pid] < drain
            case Some(p) =>
              && (exists d :: d in rows && d.pid == p) && p in idle && now - idle[p] >= drain
              && forall d | d in rows && d.pid in idle && now - idle[d.pid] >= drain :: d.pid <= p
    decreases rows
  {
    if rows != [] { NextReapIsGreatest(rows[1..], idle, now, drain); }
  }

  /** A spawn takes the lowest offline dimension and stays within the clamped
      ceiling; a reap takes an empty live dimension and keeps the clamped floor. */
  lemma DecisionIsBounded(s: State, rows: seq<Dim>, cfg: Config, now: int, ok: bool)
    ensures match Tick(s, Some(rows), cfg, now, ok).1
            case Spawn(pid) => pid in OfflinePids(rows) && (forall q | q in OfflinePids(rows) :: pid <= q)
                               && LiveCount(rows) + 1 <= Ceiling(cfg, rows)
            case Reap(pid) => pid in EmptyPids(rows) && pid in LivePids(rows) && LiveCount(rows) - 1 >= Floor(cfg, rows)
            case Hold => true
  {
    NextOfflineIsLeast(rows);
    var landed := ClearLanded(s, rows, now);
    NextReapIsGreatest(rows, Timers(rows, landed.idle, now), now, cfg.idleDrainSecs);
  }

  /** The stored timers are exactly those of the empty live dimensions, except that
      a successful reap drops the reaped one's. */
  lemma TimersMirrorEmptyDims(s: State, rows: seq<Dim>, cfg: Config, now: int, ok: bool)
    requires !Unreadable(rows)
    ensures var (after, action) := Tick(s, Some(rows), cfg, now, ok);
            after.idle.Keys == EmptyPids(rows) - if ok && action.Reap? then {action.pid} else {}
    ensures var (after, action) := Tick(s, Some(rows), cfg, now, ok);
            forall p | p in after.idle :: after.idle[p] == if p in s.idle then s.idle[p] else now
  {}

  // ----------------------------------------------------------------- spacing

  lemma {:induction false} LastSpawnRemembered(es: seq<Event>, i: nat)
    requires Valid(es) && i < |es| && ActionAt(es, i) != Hold
    ensures var last := Run(es).lastSpawn; last.Some? && last.value >= es[i].now
    decreases |es|
  {
    var before := es[..|es| - 1];
    if i < |before| {
      assert before[..i] == es[..i];
      LastSpawnRemembered(before, i);
    }
  }

  /** Any two spawn or reap decisions are at least the cooldown of the later one apart. */
  lemma DecisionsAreSpaced(es: seq<Event>, i: nat, k: nat)
    requires Valid(es) && i < k < |es| && ActionAt(es, i) != Hold && ActionAt(es, k) != Hold
    ensures es[k].now - es[i].now >= es[k].cfg.demandGraceSecs
  {
    var before := es[..k];
    assert before[..i] == es[..i];
    LastSpawnRemembered(before, i);
  }

  // --------------------------------------------------------------- in flight

  /** Some readable row set after event i, up to event k, showed the dimension live. */
  predicate SeenLive(es: seq<Event>, i: nat, k: nat, pid: Pid) {
    exists j | i < j <= k && j < |es| :: es[j].rows.Some? && pid in LivePids(es[j].rows.value)
  }

  lemma {:induction false} SpawnStaysInFlight(es: seq<Event>, i: nat)
    requires Valid(es) && i < |es| && ActionAt(es, i).Spawn? && es[i].ok
    ensures SeenLive(es, i, |es| - 1, ActionAt(es, i).pid)
         || es[|es| - 1].now - es[i].now > SPAWN_INFLIGHT_MAX_WAIT
         || (Run(es).spawningPid == Some(ActionAt(es, i).pid) && Run(es).spawningAt == Some(es[i].now))
    decreases |es|
  {
    var before := es[..|es| - 1];
    var pid := ActionAt(es, i).pid;
    if i < |before| {
      assert before[..i] == es[..i];
      SpawnStaysInFlight(before, i);
      if SeenLive(before, i, |before| - 1, pid) {
        var j :| i < j <= |before| - 1 && j < |before| && before[j].rows.Some? && pid in LivePids(before[j].rows.value);
        assert es[j] == before[j];
      }
      assert es[|es| - 1].now >= before[|before| - 1].now;
    }
  }

  /** After a spawn that started, nothing is decided until that dimension was seen
      live or the spawn window lapsed. */
  lemma NothingWhileSpawning(es: seq<Event>, i: nat, k: nat)
    requires Valid(es) && i < k < |es| && ActionAt(es, i).Spawn? && es[i].ok && ActionAt(es, k) != Hold
    ensures SeenLive(es, i, k, ActionAt(es, i).pid) || es[k].now - es[i].now > SPAWN_INFLIGHT_MAX_WAIT
  {
    var before := es[..k];
    var pid := ActionAt(es, i).pid;
    assert before[..i] == es[..i];
    SpawnStaysInFlight(before, i);
    if SeenLive(before, i, k - 1, pid) {
      var j :| i < j <= k - 1 && j < |before| && before[j].rows.Some? && pid in LivePids(before[j].rows.value);
      assert es[j] == before[j];
    } else if es[k - 1].now - es[i].now <= SPAWN_INFLIGHT_MAX_WAIT {
      assert before[k - 1] == es[k - 1];
      assert Run(before).spawningPid == Some(pid);
    }
  }

  // ------------------------------------------------------------------ reaping

  predicate Readable(e: Event) { e.rows.Some? && !Unreadable(e.rows.value) }

  predicate EmptyFrom(es: seq<Event>, j: nat, pid: Pid, t0: int) {
    && j < |es| && Readable(es[j]) && es[j].now == t0
    && forall k | j <= k < |es| && Readable(es[k]) :: pid in EmptyPids(es[k].rows.value)
  }

  lemma {:induction false} TimerIsJustified(es: seq<Event>, pid: Pid)
    requires pid in Run(es).idle
    ensures exists j: nat :: EmptyFrom(es, j, pid, Run(es).idle[pid])
    decreases |es|
  {
    var before := es[..|es| - 1];
    var e := es[|es| - 1];
    var t0 := Run(es).idle[pid];
    if Readable(e) {
      TimersMirrorEmptyDims(Run(before), e.rows.value, e.cfg, e.now, e.ok);
    }
    if pid in Run(before).idle && Run(before).idle[pid] == t0 {
      TimerIsJustified(before, pid);
      var j: nat :| EmptyFrom(before, j, pid, t0);
      forall k | j <= k < |es| && Readable(es[k]) ensures pid in EmptyPids(es[k].rows.value) {
        if k < |before| { assert before[k] == es[k]; }
      }
      assert EmptyFrom(es, j, pid, t0);
    } else {
      assert EmptyFrom(es, |es| - 1, pid, t0);
    }
  }

  /** Readable ticks from j to i, at least the drain time apart, all showed the
      dimension live and empty. */
  predicate EmptyLongEnough(es: seq<Event>, j: nat, i: nat, pid: Pid)
    requires j <= i < |es|
  {
    && Readable(es[j]) && es[i].now - es[j].now >= es[i].cfg.idleDrainSecs
    && forall k | j <= k <= i && Readable(es[k]) :: pid in EmptyPids(es[k].rows.value)
  }

  /** A reap targets only a dimension that every readable tick of the whole idle
      window, the deciding one included, saw live and empty. */
  lemma ReapIsSafe(es: seq<Event>, i: nat)
    requires i < |es| && ActionAt(es, i).Reap?
    ensures Readable(es[i]) && exists j: nat | j <= i :: EmptyLongEnough(es, j, i, ActionAt(es, i).pid)
  {
    var before := es[..i];
    var e := es[i];
    var pid := ActionAt(es, i).pid;
    var rows := e.rows.value;
    var landed := ClearLanded(Run(before), rows, e.now);
    var timers := Timers(rows, landed.idle, e.now);
    NextReapIsGreatest(rows, timers, e.now, e.cfg.idleDrainSecs);
    DecisionIsBounded(Run(before), rows, e.cfg, e.now, e.ok);
    if pid in Run(before).idle {
      TimerIsJustified(before, pid);
      var j: nat :| EmptyFrom(before, j, pid, Run(before).idle[pid]);
      assert before[j] == es[j];
      forall k | j <= k <= i && Readable(es[k]) ensures pid in EmptyPids(es[k].rows.value) {
        if k < i { assert before[k] == es[k]; }
      }
      assert EmptyLongEnough(es, j, i, pid);
    } else {
      assert EmptyLongEnough(es, i, i, pid);
    }
  }
}
