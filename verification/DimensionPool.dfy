/** The Deep Desert dimension pool: one spawn or reap per tick, a cooldown, an
    in-flight lock and per-dimension idle timers (scripts/admin_autoscaler.py). */
module DimensionPool {
  import opened Arith
  import opened Wrappers

  const SPAWN_INFLIGHT_MAX_WAIT := 600

  type Pid = nat
  /** One declared row; `players` is None when the count of a live row is unreadable. */
  datatype Dim = Dim(pid: Pid, online: bool, players: Option<int>)
  datatype Config = Config(minDims: int, maxDims: int, playersPerDim: int, idleDrainSecs: int, demandGraceSecs: int)
  datatype Action = Spawn(pid: Pid) | Reap(pid: Pid) | Hold
  datatype Decision = Decision(action: Action, idle: map<Pid, int>, lastSpawn: Option<int>)

  function Ceiling(cfg: Config, rows: seq<Dim>): int { Min(cfg.maxDims, |rows|) }
  function Floor(cfg: Config, rows: seq<Dim>): int { Max(0, Min(cfg.minDims, Ceiling(cfg, rows))) }

  function LiveCount(rows: seq<Dim>): nat {
    if rows == [] then 0 else (if rows[0].online then 1 else 0) + LiveCount(rows[1..])
  }

  function Players(d: Dim): int { if d.players.Some? then d.players.value else 0 }

  function TotalPlayers(rows: seq<Dim>): int {
    if rows == [] then 0 else (if rows[0].online then Players(rows[0]) else 0) + TotalPlayers(rows[1..])
  }

  predicate Unreadable(rows: seq<Dim>) { exists d | d in rows :: d.online && d.players.None? }

  function LivePids(rows: seq<Dim>): set<Pid> { set d | d in rows && d.online :: d.pid }
  function OfflinePids(rows: seq<Dim>): set<Pid> { set d | d in rows && !d.online :: d.pid }
  function EmptyPids(rows: seq<Dim>): set<Pid> { set d | d in rows && d.online && Players(d) == 0 :: d.pid }

  /** The smallest pid of an offline row. */
  function NextOffline(rows: seq<Dim>): Option<Pid> {
    if rows == [] then None
    else
      var rest := NextOffline(rows[1..]);
      if rows[0].online then rest
      else if rest.Some? && rest.value < rows[0].pid then rest
      else Some(rows[0].pid)
  }

  /** The largest pid of a timer that has run the whole drain time. */
  function NextReap(rows: seq<Dim>, idle: map<Pid, int>, now: int, drain: int): Option<Pid> {
    if rows == [] then None
    else
      var rest := NextReap(rows[1..], idle, now, drain);
      var pid := rows[0].pid;
      if pid !in idle || now - idle[pid] < drain then rest
      else if rest.Some? && rest.value > pid then rest
      else Some(pid)
  }

  /** Keep or start a timer for every empty live dimension, drop all others. */
  function Timers(rows: seq<Dim>, idle: map<Pid, int>, now: int): map<Pid, int> {
    map p | p in EmptyPids(rows) :: if p in idle then idle[p] else now
  }

  predicate InCooldown(lastSpawn: Option<int>, now: int, cfg: Config) {
    lastSpawn.Some? && now - lastSpawn.value < cfg.demandGraceSecs
  }

  function Decide(rows: seq<Dim>, now: int, idle: map<Pid, int>, lastSpawn: Option<int>, spawning: Option<Pid>,
                  cfg: Config): Decision {
    if Unreadable(rows) then Decision(Hold, idle, lastSpawn)
    else
      var live := LiveCount(rows);
      var timers := Timers(rows, idle, now);
      var next := NextOffline(rows);
      var reap := NextReap(rows, timers, now, cfg.idleDrainSecs);
      var cool := !InCooldown(lastSpawn, now, cfg);
      if spawning.Some? then Decision(Hold, timers, lastSpawn)
      else if live < Floor(cfg, rows) && next.Some? && cool then Decision(Spawn(next.value), timers, Some(now))
      else if live >= 1 && live < Ceiling(cfg, rows) && next.Some? && cool
          && TotalPlayers(rows) >= cfg.playersPerDim * live then
        Decision(Spawn(next.value), timers, Some(now))
      else if live > Floor(cfg, rows) && cool && reap.Some? then Decision(Reap(reap.value), timers, Some(now))
      else Decision(Hold, timers, lastSpawn)
  }

  // --------------------------------------------------------------- one tick

  /** The pool's keys in the ledger. */
  datatype State = State(spawningPid: Option<Pid>, spawningAt: Option<int>, idle: map<Pid, int>, lastSpawn: Option<int>)

  /** Clear the in-flight marker once its dimension is live or the spawn window lapsed. */
  function ClearLanded(s: State, rows: seq<Dim>, now: int): State {
    if s.spawningPid.Some?
       && (s.spawningPid.value in LivePids(rows) || (s.spawningAt.Some?
                                                     && now - s.spawningAt.value > SPAWN_INFLIGHT_MAX_WAIT))
    then s.(spawningPid := None, spawningAt := None)
    else s
  }

  function Tick(s: State, rows: Option<seq<Dim>>, cfg: Config, now: int, ok: bool): (State, Action) {
    match rows
    case None => (s, Hold)
    case Some(dims) =>
      var landed := ClearLanded(s, dims, now);
      var d := Decide(dims, now, landed.idle, landed.lastSpawn, landed.spawningPid, cfg);
      var kept := landed.(idle := d.idle, lastSpawn := if d.lastSpawn.Some? then d.lastSpawn else landed.lastSpawn);
      match d.action
      case Hold => (kept, Hold)
      case Spawn(pid) => (if ok then kept.(spawningPid := Some(pid), spawningAt := Some(now)) else kept, d.action)
      case Reap(pid) => (if ok then kept.(idle := kept.idle - {pid}) else kept, d.action)
  }

  // ------------------------------------------------------------- the ledger

  class PoolLedger {
    var spawningPid: Option<Pid>
    var spawningAt: Option<int>
    var idle: map<Pid, int>
    var lastSpawn: Option<int>

    ghost function Abs(): State
      reads this
    {
      State(spawningPid, spawningAt, idle, lastSpawn)
    }

    constructor ()
      ensures Abs() == State(None, None, map[], None)
    {
      spawningPid, spawningAt, idle, lastSpawn := None, None, map[], None;
    }

    /** Make the stored timers exactly `keep`: clear what is not kept, write the rest. */
    method MirrorTimers(keep: map<Pid, int>)
      modifies this`idle
      ensures idle == keep
    {
      var stale := idle.Keys - keep.Keys;
      while stale != {}
        invariant stale <= idle.Keys && idle.Keys - stale <= keep.Keys
        decreases stale
      {
        var k :| k in stale;
        idle := idle - {k};
        stale := stale - {k};
      }
      var todo := keep.Keys;
      while todo != {}
        invariant todo <= keep.Keys && idle.Keys <= keep.Keys
        invariant forall k | k in keep.Keys - todo :: k in idle && idle[k] == keep[k]
        decreases todo
      {
        var k :| k in todo;
        idle := idle[k := keep[k]];
        todo := todo - {k};
      }
    }

    method RunTick(rows: Option<seq<Dim>>, cfg: Config, now: int, ok: bool) returns (action: Action)
      modifies this
      ensures (Abs(), action) == Tick(old(Abs()), rows, cfg, now, ok)
    {
      if rows.None? {
        return Hold;
      }
      var dims := rows.value;
      if spawningPid.Some?
         && (spawningPid.value in LivePids(dims) || (spawningAt.Some?
                                                     && now - spawningAt.value > SPAWN_INFLIGHT_MAX_WAIT)) {
        spawningPid, spawningAt := None, None;
      }
      var d := Decide(dims, now, idle, lastSpawn, spawningPid, cfg);
      MirrorTimers(d.idle);
      if d.lastSpawn.Some? {
        lastSpawn := d.lastSpawn;
      }
      action := d.action;
      if ok && action.Spawn? {
        spawningPid, spawningAt := Some(action.pid), Some(now);
      }
      if ok && action.Reap? {
        idle := idle - {action.pid};
      }
    }
  }
}
