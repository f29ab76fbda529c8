/** When a full tick or a wake pass raises a map, to what, and when it lowers one: each an
    exact condition on the readings, the stored timers and the configured numbers. */
module AutoscalerAnswers {
  import opened Arith
  import opened Wrappers
  import opened Autoscaler
  import opened AutoscalerRuns

  /** What a pass knows of the players on a map: nothing, or how many. */
  function Reading(counts: Option<map<MapName, int>>, name: MapName): Option<int> {
    if counts.None? then None
    else if name !in counts.value then Some(0)
    else if counts.value[name] < 0 then None
    else Some(counts.value[name])
  }

  /** So many replicas honour the configured minimum, seat everybody online and, when
      somebody is travelling to the map, are at least one. */
  predicate Serves(mc: MapCfg, online: Option<int>, travel: bool, perInstance: int, n: int) {
    && n >= 0 && n >= mc.minReplicas
    && (travel ==> n >= 1)
    && (online.Some? ==> n * (if perInstance < 1 then 1 else perInstance) >= online.value)
  }

  predicate WithinCap(mc: MapCfg, n: int) { n <= mc.maxReplicas && n <= 4 }

  /** The replicas a map should have: the fewest that serve it, or as many as the configured
      maximum and the fixed one of four leave when that is fewer. */
  ghost predicate Target(mc: MapCfg, online: Option<int>, travel: bool, perInstance: int, n: int) {
    && WithinCap(mc, n)
    && (Serves(mc, online, travel, perInstance, n) || !WithinCap(mc, n + 1))
    && forall m | m < n :: !Serves(mc, online, travel, perInstance, m)
  }

  predicate Travelled(demand: map<MapName, nat>, name: MapName) { name in demand && demand[name] > 0 }

  // ------------------------------------------------------------------ the target

  lemma SeatsAll(online: int, per: int, n: int)
    requires online > 0 && per >= 1
    ensures n >= (online + per - 1) / per <==> n * per >= online
  {
    var q := (online + per - 1) / per;
    NeededIsCeil(online, per);
    assert NeededForLoad(Some(online), per) == q;
    if n >= q { MulMono(q, n, per); } else { MulMono(n, q - 1, per); }
  }

  lemma MulMono(a: int, b: int, per: int)
    requires a <= b && per >= 0
    ensures a * per <= b * per
  {
  }

  /** The fewest replicas that serve a map. */
  lemma ServesFrom(mc: MapCfg, online: Option<int>, travel: bool, per: int, n: int)
    requires online.Some? ==> online.value >= 0
    ensures Serves(mc, online, travel, per, n) <==>
            n >= Max(Max(0, mc.minReplicas), Max(NeededForLoad(online, per), if travel then 1 else 0))
  {
    var k := if per < 1 then 1 else per;
    if online.Some? && online.value > 0 {
      SeatsAll(online.value, k, n);
      assert NeededForLoad(online, per) == (online.value + k - 1) / k;
    } else if online.Some? && n >= 0 {
      MulMono(0, n, k);
    }
  }

  lemma TargetIsWant(mc: MapCfg, online: Option<int>, demand: nat, per: int, n: int)
    requires online.Some? ==> online.value >= 0
    ensures Target(mc, online, demand > 0, per, n) <==> n == Want(mc, online, demand, per)
  {
    hide NeededForLoad, Serves;
    var travel := demand > 0;
    var least := Max(Max(0, mc.minReplicas), Max(NeededForLoad(online, per), if travel then 1 else 0));
    assert Want(mc, online, demand, per) == Min(least, Ceiling(mc)) by { LoadIsNat(online, per); }
    forall m: int ensures Serves(mc, online, travel, per, m) <==> m >= least {
      ServesFrom(mc, online, travel, per, m);
    }
    assert Serves(mc, online, travel, per, least);
  }

  lemma LoadIsNat(online: Option<int>, per: int)
    ensures NeededForLoad(online, per) >= 0
  {
    if online.Some? && online.value > 0 { NeededIsCeil(online.value, Max(per, 1)); }
  }

  // ------------------------------------------------------------------ a full tick

  /** A full tick raises a map, to a number of replicas, exactly when the map is enabled and
      tracked, and that number is its target and more than it has. */
  lemma TickRaisesIff(t: Timers, cfg: Config, o: Observation, now: int, mc: MapCfg, n: int)
    requires DistinctMaps(cfg.maps) && mc in cfg.maps
    ensures Actuation(mc.name, Up, n) in FullTick(t, cfg, o, now).1 <==>
            && mc.enabled && o.mock.Some? && mc.name in o.mock.value && n > o.mock.value[mc.name]
            && Target(mc, Reading(o.counts, mc.name), Travelled(o.demand, mc.name), cfg.playersPerInstance, n)
  {
    hide DecideMap, TickMaps, FindMap, Target;
    FindListed(cfg.maps, mc);
    TickIsPointwise(t, cfg.maps, cfg, o, now, mc.name);
    if Tracked(o.mock, mc.name) {
      UpMeans(t, mc, cfg, o, now, n);
    }
  }

  lemma UpMeans(t: Timers, mc: MapCfg, cfg: Config, o: Observation, now: int, n: int)
    requires Tracked(o.mock, mc.name)
    ensures var d := DecisionFor(t, mc, cfg, o, now);
            d.action == Up && d.target == n <==>
            && mc.enabled && n > o.mock.value[mc.name]
            && Target(mc, Reading(o.counts, mc.name), Travelled(o.demand, mc.name), cfg.playersPerInstance, n)
  {
    hide Target, Want;
    TargetIsWant(mc, Reading(o.counts, mc.name), DemandFor(o.demand, mc.name), cfg.playersPerInstance, n);
  }

  lemma {:induction false} FindListed(maps: seq<MapCfg>, mc: MapCfg)
    requires DistinctMaps(maps) && mc in maps
    ensures FindMap(maps, mc.name) == Some(mc)
    decreases maps
  {
    if maps[0] != mc {
      var k :| 0 <= k < |maps| && maps[k] == mc;
      FindListed(maps[1..], mc);
    }
  }

  /** A full tick lowers a map exactly when it is enabled and tracked, has more replicas than
      its clamped minimum, nobody is on it, it has been empty for the drain time by its stored
      timer, and no travel to it falls within the grace. It is lowered to that minimum. */
  lemma TickLowersIff(t: Timers, cfg: Config, o: Observation, now: int, mc: MapCfg, n: int)
    requires DistinctMaps(cfg.maps) && mc in cfg.maps
    ensures Actuation(mc.name, Down, n) in FullTick(t, cfg, o, now).1 <==>
            && mc.enabled && o.mock.Some? && mc.name in o.mock.value && n < o.mock.value[mc.name]
            && n == Max(0, Min(mc.minReplicas, Min(mc.maxReplicas, 4)))
            && Reading(o.counts, mc.name) == Some(0)
            && (if mc.name in t.idle then now - t.idle[mc.name] else 0) >= cfg.idleDrainSecs
            && (if Travelled(o.demand, mc.name) then 0 >= cfg.demandGraceSecs
                else mc.name in t.demand ==> now - t.demand[mc.name] >= cfg.demandGraceSecs)
  {
    hide DecideMap, TickMaps, FindMap;
    FindListed(cfg.maps, mc);
    TickIsPointwise(t, cfg.maps, cfg, o, now, mc.name);
    if Tracked(o.mock, mc.name) {
      DownIff(t, mc, cfg, o, now, n);
    }
  }

  lemma DownIff(t: Timers, mc: MapCfg, cfg: Config, o: Observation, now: int, n: int)
    requires Tracked(o.mock, mc.name)
    ensures var d := DecisionFor(t, mc, cfg, o, now);
            d.action == Down && d.target == n <==>
            && mc.enabled && n < o.mock.value[mc.name]
            && n == Max(0, Min(mc.minReplicas, Min(mc.maxReplicas, 4)))
            && Reading(o.counts, mc.name) == Some(0)
            && (if mc.name in t.idle then now - t.idle[mc.name] else 0) >= cfg.idleDrainSecs
            && (if Travelled(o.demand, mc.name) then 0 >= cfg.demandGraceSecs
                else mc.name in t.demand ==> now - t.demand[mc.name] >= cfg.demandGraceSecs)
  {
    if mc.enabled && Reading(o.counts, mc.name) == Some(0) {
      assert Want(mc, Some(0), DemandFor(o.demand, mc.name), cfg.playersPerInstance) <= Max(1, Floor(mc));
    }
  }

  /** What a full tick leaves in the timers of an enabled map it tracks: the travel it saw is
      stamped, and the empty timer runs exactly while the map stands empty above its minimum
      and was neither raised nor lowered. A disabled map keeps both. */
  lemma TickStamps(t: Timers, cfg: Config, o: Observation, now: int, mc: MapCfg)
    requires DistinctMaps(cfg.maps) && mc in cfg.maps && o.mock.Some? && mc.name in o.mock.value
    ensures var (after, acts) := FullTick(t, cfg, o, now);
            var current := o.mock.value[mc.name];
            if mc.enabled then
              && Stored(after.demand, mc.name) ==
                 (if Travelled(o.demand, mc.name) then Some(now) else Stored(t.demand, mc.name))
              && Stored(after.idle, mc.name) ==
                 if Reading(o.counts, mc.name) == Some(0)
                    && current > Max(0, Min(mc.minReplicas, Min(mc.maxReplicas, 4)))
                    && (forall a | a in acts :: a.name != mc.name) then
                   Some(if mc.name in t.idle then t.idle[mc.name] else now)
                 else None
            else
              && Stored(after.demand, mc.name) == Stored(t.demand, mc.name)
              && Stored(after.idle, mc.name) == Stored(t.idle, mc.name)
              && (forall a | a in acts :: a.name != mc.name)
  {
    hide TickMaps, FindMap, Want;
    FindListed(cfg.maps, mc);
    TickIsPointwise(t, cfg.maps, cfg, o, now, mc.name);
  }

  /** A tick acts on the configured, tracked maps alone, and once each. */
  lemma TickActsOnce(t: Timers, cfg: Config, o: Observation, now: int, name: MapName)
    requires DistinctMaps(cfg.maps)
    ensures var acts := FullTick(t, cfg, o, now).1;
            && |On(acts, name)| <= 1
            && (forall a | a in acts && a.name == name :: a.action != Hold && o.mock.Some? && name in o.mock.value
                                                          && exists mc :: mc in cfg.maps && mc.name == name)
  {
    hide DecideMap, TickMaps;
    TickActsOn(t, cfg.maps, cfg, o, now, name);
    OnMembers(FullTick(t, cfg, o, now).1, name);
    FindMapIn(cfg.maps, name);
  }

  // ------------------------------------------------------------------ a wake pass

  /** A wake pass raises a map, to a number of replicas, exactly when somebody travels to it,
      it is enabled and tracked, and that number, worked out without a player count, is its
      target and more than it has. */
  lemma WakeRaisesIff(t: Timers, cfg: Config, mock: Option<map<MapName, int>>, demand: map<MapName, nat>, now: int,
                      mc: MapCfg, n: int)
    requires DistinctMaps(cfg.maps) && mc in cfg.maps
    ensures Actuation(mc.name, Up, n) in WakePass(t, cfg, mock, demand, now).1 <==>
            && Travelled(demand, mc.name) && mc.enabled && mock.Some? && mc.name in mock.value
            && n > mock.value[mc.name] && Target(mc, None, true, cfg.playersPerInstance, n)
  {
    hide WakeAction, WakeMaps, Demanded, Target;
    WakeSeesListed(cfg.maps, cfg.maps, cfg, mock, demand, now, mc, n);
    if Travelled(demand, mc.name) { WakeUpMeans(mc, cfg, mock, demand, now, n); }
  }

  lemma WakeUpMeans(mc: MapCfg, cfg: Config, mock: Option<map<MapName, int>>, demand: map<MapName, nat>, now: int,
                    n: int)
    requires Travelled(demand, mc.name)
    ensures Actuation(mc.name, Up, n) in WakeAction(mc, cfg, mock, demand, now) <==>
            && mc.enabled && mock.Some? && mc.name in mock.value
            && n > mock.value[mc.name] && Target(mc, None, true, cfg.playersPerInstance, n)
  {
    hide Target, Want;
    TargetIsWant(mc, None, DemandFor(demand, mc.name), cfg.playersPerInstance, n);
  }

  lemma {:induction false} WakeSeesListed(maps: seq<MapCfg>, all: seq<MapCfg>, cfg: Config,
                                          mock: Option<map<MapName, int>>, demand: map<MapName, nat>, now: int,
                                          mc: MapCfg, n: int)
    requires DistinctMaps(all) && mc in all && (forall m | m in maps :: m in all)
    ensures Actuation(mc.name, Up, n) in WakeMaps(Demanded(maps, demand), cfg, mock, demand, now) <==>
            mc in maps && Travelled(demand, mc.name)
            && Actuation(mc.name, Up, n) in WakeAction(mc, cfg, mock, demand, now)
    decreases maps
  {
    hide WakeDecision;
    if maps != [] {
      var head, rest := maps[0], Demanded(maps[1..], demand);
      WakeSeesListed(maps[1..], all, cfg, mock, demand, now, mc, n);
      assert mc in maps <==> mc == head || mc in maps[1..];
      FindListed(all, mc);
      FindListed(all, head);
      assert head.name == mc.name ==> head == mc;
      if DemandFor(demand, head.name) > 0 {
        assert ([head] + rest)[1..] == rest;
      } else {
        assert Demanded(maps, demand) == rest;
      }
    }
  }

  /** Travel wakes: whatever the timers, an enabled, tracked map that is down and may have a
      replica is raised by the next wake pass that sees somebody travel to it, and by the next
      full tick that does. */
  lemma TravelWakes(t: Timers, cfg: Config, o: Observation, now: int, mc: MapCfg)
    requires DistinctMaps(cfg.maps) && mc in cfg.maps
    requires mc.enabled && mc.maxReplicas >= 1 && Travelled(o.demand, mc.name)
    requires o.mock.Some? && mc.name in o.mock.value && o.mock.value[mc.name] <= 0
    ensures exists n :: n >= 1 && Actuation(mc.name, Up, n) in WakePass(t, cfg, o.mock, o.demand, now).1
    ensures exists n :: n >= 1 && Actuation(mc.name, Up, n) in FullTick(t, cfg, o, now).1
  {
    hide WakePass, FullTick, NeededForLoad, Target;
    var ppi := cfg.playersPerInstance;
    var demand := DemandFor(o.demand, mc.name);
    var online := Reading(o.counts, mc.name);
    var blind, seeing := Want(mc, None, demand, ppi), Want(mc, online, demand, ppi);
    TargetIsWant(mc, None, demand, ppi, blind);
    TargetIsWant(mc, online, demand, ppi, seeing);
    WakeRaisesIff(t, cfg, o.mock, o.demand, now, mc, blind);
    TickRaisesIff(t, cfg, o, now, mc, seeing);
  }

  /** Load raises: a full tick that reads more players than the replicas of an enabled,
      tracked map seat, with room left under the caps, raises it. */
  lemma LoadRaises(t: Timers, cfg: Config, o: Observation, now: int, mc: MapCfg)
    requires DistinctMaps(cfg.maps) && mc in cfg.maps && mc.enabled && cfg.playersPerInstance >= 1
    requires o.mock.Some? && mc.name in o.mock.value && o.counts.Some? && mc.name in o.counts.value
    requires o.mock.value[mc.name] >= 0 && WithinCap(mc, o.mock.value[mc.name] + 1)
    requires o.counts.value[mc.name] > o.mock.value[mc.name] * cfg.playersPerInstance
    ensures exists n :: n > o.mock.value[mc.name] && Actuation(mc.name, Up, n) in FullTick(t, cfg, o, now).1
  {
    hide FullTick, Target;
    var ppi := cfg.playersPerInstance;
    var current := o.mock.value[mc.name];
    var online := Reading(o.counts, mc.name);
    MulMono(0, current, ppi);
    assert online == Some(o.counts.value[mc.name]);
    SeatsAll(online.value, ppi, current);
    var n := Want(mc, online, DemandFor(o.demand, mc.name), ppi);
    TargetIsWant(mc, online, DemandFor(o.demand, mc.name), ppi, n);
    TickRaisesIff(t, cfg, o, now, mc, n);
  }
}
