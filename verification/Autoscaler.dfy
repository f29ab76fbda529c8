/** The per-map scaling policy and its persisted timers (scripts/admin_autoscaler.py).
    Times are the whole seconds the ledger stores; player counts are exact. */
module Autoscaler {
  import opened Arith
  import opened Wrappers

  const SCALE_REPLICAS_MAX := 4

  type MapName = string
  datatype MapCfg = MapCfg(name: MapName, enabled: bool, minReplicas: int, maxReplicas: int)
  datatype Config = Config(maps: seq<MapCfg>, playersPerInstance: int, idleDrainSecs: int, demandGraceSecs: int)

  datatype Action = Up | Down | Hold
  datatype Decision = Decision(action: Action, target: int, idleSince: Option<int>, lastDemand: Option<int>)

  function Ceiling(mc: MapCfg): int { Min(mc.maxReplicas, SCALE_REPLICAS_MAX) }
  function Floor(mc: MapCfg): int { Max(0, Min(mc.minReplicas, Ceiling(mc))) }

  /** ceil(online / playersPerInstance), 0 for nobody or an unreadable count. */
  function NeededForLoad(online: Option<int>, playersPerInstance: int): int {
    if online.None? || online.value <= 0 then 0
    else
      var ppi := Max(playersPerInstance, 1);
      (online.value + ppi - 1) / ppi
  }

  function Want(mc: MapCfg, online: Option<int>, demand: int, ppi: int): int {
    Min(Max(Max(Floor(mc), NeededForLoad(online, ppi)), if demand > 0 then 1 else 0), Ceiling(mc))
  }

  function DecideMap(mc: MapCfg, current: int, reading: Option<int>, demand: int, now: int, idleSince: Option<int>,
                     lastDemand: Option<int>, cfg: Config): Decision
  {
    if !mc.enabled then Decision(Hold, current, idleSince, lastDemand)
    else
      var online := if reading.Some? && reading.value < 0 then None else reading;
      var newDemand := if demand > 0 then Some(now) else lastDemand;
      var want := Want(mc, online, demand, cfg.playersPerInstance);
      if want > current then Decision(Up, want, None, newDemand)
      else if current <= Floor(mc) || online.None? || online.value > 0 then Decision(Hold, current, None, newDemand)
      else
        var started := if idleSince.Some? then idleSince.value else now;
        var inGrace := newDemand.Some? && now - newDemand.value < cfg.demandGraceSecs;
        if now - started >= cfg.idleDrainSecs && !inGrace then Decision(Down, Floor(mc), None, newDemand)
        else Decision(Hold, current, Some(started), newDemand)
  }

  // ------------------------------------------------------------- the ledger

  datatype Timers = Timers(idle: map<MapName, int>, demand: map<MapName, int>)
  datatype Actuation = Actuation(name: MapName, action: Action, target: int)

  /** What one pass reads: desired replicas per tracked map, online players per
      map, and the travel demand parsed from the new log lines. */
  datatype Observation = Observation(mock: Option<map<MapName, int>>, counts: Option<map<MapName, int>>,
                                     demand: map<MapName, nat>)

  function Stored(timers: map<MapName, int>, name: MapName): Option<int> {
    if name in timers then Some(timers[name]) else None
  }

  function Persist(timers: map<MapName, int>, name: MapName, t: Option<int>): map<MapName, int> {
    match t
    case None => timers - {name}
    case Some(v) => timers[name := v]
  }

  function DemandFor(demand: map<MapName, nat>, name: MapName): nat { if name in demand then demand[name] else 0 }

  function OnlineFor(counts: Option<map<MapName, int>>, name: MapName): Option<int> {
    match counts
    case None => None
    case Some(c) => Some(if name in c then c[name] else 0)
  }

  predicate Tracked(mock: Option<map<MapName, int>>, name: MapName) { mock.Some? && name in mock.value }

  function DecisionFor(t: Timers, mc: MapCfg, cfg: Config, o: Observation, now: int): Decision
    requires Tracked(o.mock, mc.name)
  {
    DecideMap(mc, o.mock.value[mc.name], OnlineFor(o.counts, mc.name), DemandFor(o.demand, mc.name), now,
              Stored(t.idle, mc.name), Stored(t.demand, mc.name), cfg)
  }

  function Apply(t: Timers, name: MapName, d: Decision): Timers {
    Timers(Persist(t.idle, name, d.idleSince), Persist(t.demand, name, d.lastDemand))
  }

  /** The map loop of a full tick. */
  function TickMaps(t: Timers, maps: seq<MapCfg>, cfg: Config, o: Observation, now: int): (Timers, seq<Actuation>)
    decreases maps
  {
    if maps == [] then (t, [])
    else
      var mc := maps[0];
      if !Tracked(o.mock, mc.name) then TickMaps(t, maps[1..], cfg, o, now)
      else
        var d := DecisionFor(t, mc, cfg, o, now);
        var (after, acts) := TickMaps(Apply(t, mc.name, d), maps[1..], cfg, o, now);
        (after, (if d.action == Hold then [] else [Actuation(mc.name, d.action, d.target)]) + acts)
  }

  function FullTick(t: Timers, cfg: Config, o: Observation, now: int): (Timers, seq<Actuation>) {
    TickMaps(t, cfg.maps, cfg, o, now)
  }

  /** The demanded maps of a wake pass, in configuration order. */
  function Demanded(maps: seq<MapCfg>, demand: map<MapName, nat>): seq<MapCfg> {
    if maps == [] then []
    else (if DemandFor(demand, maps[0].name) > 0 then [maps[0]] else []) + Demanded(maps[1..], demand)
  }

  function ArmGrace(demand: map<MapName, int>, maps: seq<MapCfg>, now: int): map<MapName, int>
    decreases maps
  {
    if maps == [] then demand else ArmGrace(demand[maps[0].name := now], maps[1..], now)
  }

  /** A wake pass decides blind: no player count, no idle timer, demand just seen. */
  function WakeDecision(mc: MapCfg, cfg: Config, current: int, demand: nat, now: int): Decision {
    DecideMap(mc, current, None, demand, now, None, Some(now), cfg)
  }

  function WakeAction(mc: MapCfg, cfg: Config, mock: Option<map<MapName, int>>, demand: map<MapName, nat>,
                      now: int): seq<Actuation> {
    if !Tracked(mock, mc.name) then []
    else
      var d := WakeDecision(mc, cfg, mock.value[mc.name], DemandFor(demand, mc.name), now);
      if d.action == Up then [Actuation(mc.name, Up, d.target)] else []
  }

  function WakeMaps(maps: seq<MapCfg>, cfg: Config, mock: Option<map<MapName, int>>, demand: map<MapName, nat>,
                    now: int): seq<Actuation> {
    if maps == [] then [] else WakeAction(maps[0], cfg, mock, demand, now) + WakeMaps(maps[1..], cfg, mock, demand, now)
  }

  function WakePass(t: Timers, cfg: Config, mock: Option<map<MapName, int>>, demand: map<MapName, nat>,
                    now: int): (Timers, seq<Actuation>) {
    var demanded := Demanded(cfg.maps, demand);
    (t.(demand := ArmGrace(t.demand, demanded, now)), WakeMaps(demanded, cfg, mock, demand, now))
  }

  // ------------------------------------------------------ the ledger object

  class AutoscalerLedger {
    var idle: map<MapName, int>
    var demand: map<MapName, int>

    ghost function Abs(): Timers
      reads this
    {
      Timers(idle, demand)
    }

    constructor ()
      ensures Abs() == Timers(map[], map[])
    {
      idle, demand := map[], map[];
    }

    method RunTick(cfg: Config, o: Observation, now: int) returns (actions: seq<Actuation>)
      modifies this
      ensures (Abs(), actions) == FullTick(old(Abs()), cfg, o, now)
    {
      actions := [];
      ghost var t0 := Abs();
      for i := 0 to |cfg.maps|
        invariant TickMaps(Abs(), cfg.maps[i..], cfg, o, now).0 == TickMaps(t0, cfg.maps, cfg, o, now).0
        invariant actions + TickMaps(Abs(), cfg.maps[i..], cfg, o, now).1 == TickMaps(t0, cfg.maps, cfg, o, now).1
      {
        ghost var t := Abs();
        var mc := cfg.maps[i];
        assert cfg.maps[i..][0] == mc && cfg.maps[i..][1..] == cfg.maps[i + 1..];
        if Tracked(o.mock, mc.name) {
          var d := DecideMap(mc, o.mock.value[mc.name], OnlineFor(o.counts, mc.name), DemandFor(o.demand, mc.name), now,
                             Stored(idle, mc.name), Stored(demand, mc.name), cfg);
          idle := Persist(idle, mc.name, d.idleSince);
          demand := Persist(demand, mc.name, d.lastDemand);
          assert Abs() == Apply(t, mc.name, d);
          if d.action != Hold {
            actions := actions + [Actuation(mc.name, d.action, d.target)];
          }
        }
      }
      assert cfg.maps[|cfg.maps|..] == [];
      assert TickMaps(Abs(), [], cfg, o, now) == (Abs(), []);
      assert actions + [] == actions;
    }

    /** Arm the grace of every demanded map first, then wake what can be woken. */
    method RunWake(cfg: Config, mock: Option<map<MapName, int>>, seen: map<MapName, nat>, now: int)
        returns (actions: seq<Actuation>)
      modifies this`demand
      ensures (Abs(), actions) == WakePass(old(Abs()), cfg, mock, seen, now)
    {
      var demanded := DemandedMaps(cfg.maps, seen);
      for i := 0 to |demanded|
        invariant idle == old(idle)
        invariant ArmGrace(demand, demanded[i..], now) == ArmGrace(old(demand), demanded, now)
      {
        demand := demand[demanded[i].name := now];
      }
      actions := Wake(demanded, cfg, mock, seen, now);
    }
  }

  method DemandedMaps(maps: seq<MapCfg>, seen: map<MapName, nat>) returns (demanded: seq<MapCfg>)
    ensures demanded == Demanded(maps, seen)
  {
    demanded := [];
    for i := 0 to |maps|
      invariant demanded + Demanded(maps[i..], seen) == Demanded(maps, seen)
    {
      if DemandFor(seen, maps[i].name) > 0 {
        demanded := demanded + [maps[i]];
      }
    }
  }

  lemma WakeFirst(demanded: seq<MapCfg>, i: nat, cfg: Config, mock: Option<map<MapName, int>>,
                  seen: map<MapName, nat>, now: int)
    requires i < |demanded|
    ensures WakeMaps(demanded[i..], cfg, mock, seen, now) ==
            WakeAction(demanded[i], cfg, mock, seen, now) + WakeMaps(demanded[i + 1..], cfg, mock, seen, now)
  {
    hide WakeAction;
    assert demanded[i..][0] == demanded[i] && demanded[i..][1..] == demanded[i + 1..];
  }

  method Wake(demanded: seq<MapCfg>, cfg: Config, mock: Option<map<MapName, int>>, seen: map<MapName, nat>, now: int)
      returns (actions: seq<Actuation>)
    ensures actions == WakeMaps(demanded, cfg, mock, seen, now)
  {
    hide WakeMaps, WakeDecision;
    actions := [];
    for i := 0 to |demanded|
      invariant actions + WakeMaps(demanded[i..], cfg, mock, seen, now) == WakeMaps(demanded, cfg, mock, seen, now)
    {
      var mc := demanded[i];
      ghost var more, rest := WakeAction(mc, cfg, mock, seen, now), WakeMaps(demanded[i + 1..], cfg, mock, seen, now);
      WakeFirst(demanded, i, cfg, mock, seen, now);
      assert actions + (more + rest) == (actions + more) + rest;
      if Tracked(mock, mc.name) {
        var d := WakeDecision(mc, cfg, mock.value[mc.name], DemandFor(seen, mc.name), now);
        if d.action == Up {
          actions := actions + [Actuation(mc.name, Up, d.target)];
        }
      }
    }
    WakeNothing(cfg, mock, seen, now);
    assert demanded[|demanded|..] == [];
  }

  lemma WakeNothing(cfg: Config, mock: Option<map<MapName, int>>, seen: map<MapName, nat>, now: int)
    ensures WakeMaps([], cfg, mock, seen, now) == []
  {
  }
}
