/** When a map may be scaled down, over every interleaving of full ticks, wake
    passes and configuration changes; and where a map settles. */
module AutoscalerRuns {
  import opened Arith
  import opened Wrappers
  import opened Autoscaler

  datatype Event =
    | Full(cfg: Config, o: Observation, now: int)
    | Wake(cfg: Config, mock: Option<map<MapName, int>>, demand: map<MapName, nat>, now: int)

  function Step(t: Timers, e: Event): (Timers, seq<Actuation>) {
    match e
    case Full(cfg, o, now) => FullTick(t, cfg, o, now)
    case Wake(cfg, mock, demand, now) => WakePass(t, cfg, mock, demand, now)
  }

  function Run(es: seq<Event>): Timers {
    if es == [] then Timers(map[], map[]) else Step(Run(es[..|es| - 1]), es[|es| - 1]).0
  }

  function Actions(es: seq<Event>, i: nat): seq<Actuation>
    requires i < |es|
  {
    Step(Run(es[..i]), es[i]).1
  }

  // ------------------------------------------------------------ reading events

  function FindMap(maps: seq<MapCfg>, name: MapName): (r: Option<MapCfg>)
    ensures r.Some? ==> r.value in maps && r.value.name == name
  {
    if maps == [] then None else if maps[0].name == name then Some(maps[0]) else FindMap(maps[1..], name)
  }

  /** What a validated configuration guarantees. */
  predicate DistinctMaps(maps: seq<MapCfg>) { forall i, j | 0 <= i < j < |maps| :: maps[i].name != maps[j].name }

  /** The tick decides about this map: enabled and tracked. */
  predicate Evaluates(e: Event, name: MapName) {
    e.Full? && FindMap(e.cfg.maps, name).Some? && FindMap(e.cfg.maps, name).value.enabled && Tracked(e.o.mock, name)
  }

  predicate ReadsZero(e: Event, name: MapName) { e.Full? && OnlineFor(e.o.counts, name) == Some(0) }

  predicate RecordsDemand(e: Event, name: MapName) {
    match e
    case Full(_, o, _) => Evaluates(e, name) && DemandFor(o.demand, name) > 0
    case Wake(cfg, _, demand, _) => FindMap(cfg.maps, name).Some? && DemandFor(demand, name) > 0
  }

  predicate Valid(es: seq<Event>) {
    && (forall i | 0 <= i < |es| :: DistinctMaps(es[i].cfg.maps))
    && (forall i, j | 0 <= i <= j < |es| :: es[i].now <= es[j].now)
  }

  // ------------------------------------------------------- one map of one tick

  lemma {:induction false} FindMapIn(maps: seq<MapCfg>, name: MapName)
    ensures FindMap(maps, name).None? <==> forall mc | mc in maps :: mc.name != name
    decreases maps
  {
    if maps != [] { FindMapIn(maps[1..], name); }
  }

  /** The timers of one map after the loop are those of its own decision. */
  lemma {:induction false} TickTimers(t: Timers, maps: seq<MapCfg>, cfg: Config, o: Observation, now: int,
                                      name: MapName)
    requires DistinctMaps(maps)
    ensures var after, mc := TickMaps(t, maps, cfg, o, now).0, FindMap(maps, name);
            if mc.Some? && Tracked(o.mock, name) then
              var d := DecisionFor(t, mc.value, cfg, o, now);
              Stored(after.idle, name) == d.idleSince && Stored(after.demand, name) == d.lastDemand
            else
              Stored(after.idle, name) == Stored(t.idle, name) && Stored(after.demand, name) == Stored(t.demand, name)
    decreases maps
  {
    hide DecideMap;
    if maps != [] {
      var mc, rest := maps[0], maps[1..];
      FindMapIn(rest, name);
      if !Tracked(o.mock, mc.name) {
        TickTimers(t, rest, cfg, o, now, name);
      } else {
        TickTimers(Apply(t, mc.name, DecisionFor(t, mc, cfg, o, now)), rest, cfg, o, now, name);
        if mc.name == name {
          assert forall m | m in rest :: m.name != name;
        }
      }
    }
  }

  /** What the loop does to one map is what its own decision says, and nothing else. */
  lemma TickIsPointwise(t: Timers, maps: seq<MapCfg>, cfg: Config, o: Observation, now: int, name: MapName)
    requires DistinctMaps(maps)
    ensures var (after, acts) := TickMaps(t, maps, cfg, o, now);
            var mc := FindMap(maps, name);
            if mc.Some? && Tracked(o.mock, name) then
              var d := DecisionFor(t, mc.value, cfg, o, now);
              && Stored(after.idle, name) == d.idleSince && Stored(after.demand, name) == d.lastDemand
              && (forall a | a in acts && a.name == name ::
                    a == Actuation(name, d.action, d.target) && d.action != Hold)
              && (d.action != Hold ==> Actuation(name, d.action, d.target) in acts)
            else
              && Stored(after.idle, name) == Stored(t.idle, name)
              && Stored(after.demand, name) == Stored(t.demand, name)
              && (forall a | a in acts :: a.name != name)
  {
    hide DecideMap, TickMaps, FindMap;
    TickTimers(t, maps, cfg, o, now, name);
    TickActsOn(t, maps, cfg, o, now, name);
    OnMembers(TickMaps(t, maps, cfg, o, now).1, name);
  }

  lemma {:induction false} OnMembers(acts: seq<Actuation>, name: MapName)
    ensures forall a :: a in On(acts, name) <==> a in acts && a.name == name
    decreases acts
  {
    if acts != [] {
      OnMembers(acts[1..], name);
      assert forall a :: a in acts <==> a == acts[0] || a in acts[1..];
    }
  }

  lemma {:induction false} WakeIsPointwise(demand: map<MapName, int>, maps: seq<MapCfg>, seen: map<MapName, nat>,
                                           now: int, name: MapName)
    ensures Stored(ArmGrace(demand, Demanded(maps, seen), now), name) ==
            if FindMap(maps, name).Some? && DemandFor(seen, name) > 0 then Some(now) else Stored(demand, name)
    decreases maps
  {
    if maps != [] {
      var rest := Demanded(maps[1..], seen);
      if DemandFor(seen, maps[0].name) > 0 {
        assert Demanded(maps, seen) == [maps[0]] + rest;
        assert ([maps[0]] + rest)[1..] == rest;
        WakeIsPointwise(demand[maps[0].name := now], maps[1..], seen, now, name);
      } else {
        assert Demanded(maps, seen) == rest;
        WakeIsPointwise(demand, maps[1..], seen, now, name);
      }
    }
  }

  /** A wake pass never scales anything down. */
  lemma {:induction false} WakeOnlyRaises(maps: seq<MapCfg>, cfg: Config, mock: Option<map<MapName, int>>,
                                          demand: map<MapName, nat>, now: int)
    ensures forall a | a in WakeMaps(maps, cfg, mock, demand, now) ::
              a.action == Up && Tracked(mock, a.name) && a.target > mock.value[a.name]
    decreases maps
  {
    if maps != [] { WakeOnlyRaises(maps[1..], cfg, mock, demand, now); }
  }

  // ------------------------------------------------------------- the invariant

  /** Event j started the idle timer at t0, and every evaluated tick since read 0. */
  predicate IdleFrom(es: seq<Event>, j: nat, name: MapName, t0: int) {
    && j < |es| && Evaluates(es[j], name) && es[j].now == t0
    && (forall k | j <= k < |es| && Evaluates(es[k], name) :: ReadsZero(es[k], name))
  }

  ghost predicate IdleJustified(es: seq<Event>, name: MapName) {
    var idle := Stored(Run(es).idle, name);
    idle.Some? ==> exists j: nat :: IdleFrom(es, j, name, idle.value)
  }

  predicate DemandRemembered(es: seq<Event>, name: MapName) {
    forall k | 0 <= k < |es| && RecordsDemand(es[k], name) ::
      var d := Stored(Run(es).demand, name); d.Some? && d.value >= es[k].now
  }

  /** An idle timer that is set after an event was kept through it, or started by it. */
  lemma IdleKeptOrStarted(t: Timers, e: Event, name: MapName)
    requires DistinctMaps(e.cfg.maps) && Stored(Step(t, e).0.idle, name).Some?
    ensures Evaluates(e, name) ==> ReadsZero(e, name)
    ensures Stored(t.idle, name) == Stored(Step(t, e).0.idle, name)
            || (Evaluates(e, name) && Stored(Step(t, e).0.idle, name) == Some(e.now))
  {
    if e.Full? {
      TickIsPointwise(t, e.cfg.maps, e.cfg, e.o, e.now, name);
    }
  }

  lemma IdleStep(es: seq<Event>, name: MapName)
    requires es != [] && Valid(es) && IdleJustified(es[..|es| - 1], name)
    ensures IdleJustified(es, name)
  {
    var before := es[..|es| - 1];
    var last := es[|es| - 1];
    var idle := Stored(Run(es).idle, name);
    if idle.Some? {
      IdleKeptOrStarted(Run(before), last, name);
      if Stored(Run(before).idle, name) == idle {
        var j: nat :| IdleFrom(before, j, name, idle.value);
        forall k | j <= k < |es| && Evaluates(es[k], name) ensures ReadsZero(es[k], name) {
          if k < |before| { assert before[k] == es[k]; }
        }
        assert IdleFrom(es, j, name, idle.value);
      } else {
        assert IdleFrom(es, |es| - 1, name, idle.value);
      }
    }
  }

  lemma DemandStep(es: seq<Event>, name: MapName)
    requires es != [] && Valid(es) && DemandRemembered(es[..|es| - 1], name)
    ensures DemandRemembered(es, name)
  {
    hide TickMaps, WakeMaps;
    var before := es[..|es| - 1];
    var last := es[|es| - 1];
    var t := Run(before);
    if last.Full? {
      TickIsPointwise(t, last.cfg.maps, last.cfg, last.o, last.now, name);
    } else {
      WakeIsPointwise(t.demand, last.cfg.maps, last.demand, last.now, name);
    }
    forall k | 0 <= k < |es| && RecordsDemand(es[k], name)
      ensures var d := Stored(Run(es).demand, name); d.Some? && d.value >= es[k].now
    {
      if k < |before| {
        assert before[k] == es[k];
        assert RecordsDemand(before[k], name);
        assert Stored(t.demand, name).Some? && Stored(t.demand, name).value >= es[k].now;
      } else {
        assert es[k] == last;
      }
      assert es[k].now <= last.now;
    }
  }

  lemma {:induction false} RunKeeps(es: seq<Event>, name: MapName)
    requires Valid(es)
    ensures IdleJustified(es, name) && DemandRemembered(es, name)
    decreases |es|
  {
    if es != [] {
      RunKeeps(es[..|es| - 1], name);
      IdleStep(es, name);
      DemandStep(es, name);
    }
  }

  /** The map was evaluated empty at event j, at least the drain time before event
      i, and at every evaluated tick from j to i. */
  predicate EmptyLongEnough(es: seq<Event>, j: nat, i: nat, name: MapName)
    requires j <= i < |es|
  {
    && Evaluates(es[j], name) && ReadsZero(es[j], name)
    && es[i].now - es[j].now >= es[i].cfg.idleDrainSecs
    && (forall k | j <= k <= i && Evaluates(es[k], name) :: ReadsZero(es[k], name))
  }

  /** Every scale-down of every run is a full tick that reads exactly nobody on a
      map above its floor that has been seen empty, whenever it was evaluated, for
      the whole drain time, with no recorded demand inside the grace. */
  lemma ScaleDownIsSafe(es: seq<Event>, i: nat, a: Actuation)
    requires Valid(es) && i < |es| && a in Actions(es, i) && a.action == Down
    ensures es[i].Full? && Evaluates(es[i], a.name) && ReadsZero(es[i], a.name)
    ensures var mc := FindMap(es[i].cfg.maps, a.name).value; a.target == Floor(mc) < es[i].o.mock.value[a.name]
    ensures exists j: nat | j <= i :: EmptyLongEnough(es, j, i, a.name)
    ensures forall k | 0 <= k <= i && RecordsDemand(es[k], a.name) :: es[i].now - es[k].now >= es[i].cfg.demandGraceSecs
  {
    hide TickMaps, WakeMaps, DecideMap, Want;
    var e := es[i];
    if e.Wake? {
      WakeOnlyRaises(Demanded(e.cfg.maps, e.demand), e.cfg, e.mock, e.demand, e.now);
      assert false;
    } else {
      TickIsPointwise(Run(es[..i]), e.cfg.maps, e.cfg, e.o, e.now, a.name);
      FindMapIn(e.cfg.maps, a.name);
      DownMeans(Run(es[..i]), FindMap(e.cfg.maps, a.name).value, e.cfg, e.o, e.now);
      DownAfterRun(es, i, a.name);
    }
  }

  /** What a decision to scale down has read. */
  lemma DownMeans(t: Timers, mc: MapCfg, cfg: Config, o: Observation, now: int)
    requires Tracked(o.mock, mc.name) && DecisionFor(t, mc, cfg, o, now).action == Down
    ensures mc.enabled && OnlineFor(o.counts, mc.name) == Some(0) && DemandsGone(t, cfg, o, now, mc.name)
    ensures DecisionFor(t, mc, cfg, o, now).target == Floor(mc) < o.mock.value[mc.name]
    ensures now - (if mc.name in t.idle then t.idle[mc.name] else now) >= cfg.idleDrainSecs
  {
  }

  predicate DemandsGone(t: Timers, cfg: Config, o: Observation, now: int, name: MapName) {
    if DemandFor(o.demand, name) > 0 then 0 >= cfg.demandGraceSecs
    else name in t.demand ==> now - t.demand[name] >= cfg.demandGraceSecs
  }

  lemma DownAfterRun(es: seq<Event>, i: nat, name: MapName)
    requires Valid(es) && i < |es| && Evaluates(es[i], name) && ReadsZero(es[i], name)
    requires var t, e := Run(es[..i]), es[i];
             && DemandsGone(t, e.cfg, e.o, e.now, name)
             && e.now - (if name in t.idle then t.idle[name] else e.now) >= e.cfg.idleDrainSecs
    ensures exists j: nat | j <= i :: EmptyLongEnough(es, j, i, name)
    ensures forall k | 0 <= k <= i && RecordsDemand(es[k], name) :: es[i].now - es[k].now >= es[i].cfg.demandGraceSecs
  {
    hide Run;
    var before, e := es[..i], es[i];
    var t := Run(before);
    RunKeeps(before, name);
    if name in t.idle {
      var j: nat :| IdleFrom(before, j, name, t.idle[name]);
      assert before[j] == es[j];
      forall k | j <= k <= i && Evaluates(es[k], name) ensures ReadsZero(es[k], name) {
        if k < i { assert before[k] == es[k]; }
      }
      assert EmptyLongEnough(es, j, i, name);
    } else {
      assert EmptyLongEnough(es, i, i, name);
    }
    forall k | 0 <= k <= i && RecordsDemand(es[k], name) ensures e.now - es[k].now >= e.cfg.demandGraceSecs {
      if k < i {
        assert before[k] == es[k];
        assert Stored(t.demand, name).Some? && Stored(t.demand, name).value >= es[k].now;
      }
    }
  }

  // --------------------------------------------------------------- settling

  /** After an evaluated decision the replicas never drop below the floor, whatever was
      read, and cover the load that was read, up to the ceiling. */
  lemma DecisionCoversLoad(mc: MapCfg, current: int, reading: Option<int>, demand: int, now: int, idle: Option<int>,
                           last: Option<int>, cfg: Config)
    requires mc.enabled && mc.maxReplicas >= 1
    ensures var d := DecideMap(mc, current, reading, demand, now, idle, last, cfg);
            && d.target >= Floor(mc)
            && d.target >= Min(Ceiling(mc), NeededForLoad(reading, cfg.playersPerInstance))
            && (d.target > Ceiling(mc) ==> d.target == current)
            && (d.action == Hold <==> d.target == current)
            && (reading.None? || reading.value < 0 ==> d.action != Down)
  {}

  /** The exact ceiling division behind the load target. */
  lemma NeededIsCeil(online: int, ppi: int)
    requires online > 0 && ppi >= 1
    ensures var n := NeededForLoad(Some(online), ppi); (n - 1) * ppi < online <= n * ppi
  {
    var n := NeededForLoad(Some(online), ppi);
    assert online + ppi - 1 == n * ppi + (online + ppi - 1) % ppi;
  }

  datatype Sim = Sim(replicas: int, idle: Option<int>, actions: nat)

  /** Ticks at the given times with everybody staying put: the same readable
      population, no demand, and every patch applied. */
  function Simulate(mc: MapCfg, cfg: Config, online: nat, last: Option<int>, s: Sim, times: seq<int>): Sim
    decreases times
  {
    if times == [] then s
    else
      var d := DecideMap(mc, s.replicas, Some(online), 0, times[0], s.idle, last, cfg);
      Simulate(mc, cfg, online, last, Sim(d.target, d.idleSince, s.actions + if d.action == Hold then 0 else 1),
               times[1..])
  }

  predicate AtRest(mc: MapCfg, cfg: Config, online: nat, replicas: int) {
    Want(mc, Some(online), 0, cfg.playersPerInstance) <= replicas && (replicas <= Floor(mc) || online > 0)
  }

  lemma {:induction false} RestHolds(mc: MapCfg, cfg: Config, online: nat, last: Option<int>, s: Sim, times: seq<int>)
    requires mc.enabled && AtRest(mc, cfg, online, s.replicas)
    ensures var r := Simulate(mc, cfg, online, last, s, times); r.replicas == s.replicas && r.actions == s.actions
    decreases times
  {
    if times != [] {
      var d := DecideMap(mc, s.replicas, Some(online), 0, times[0], s.idle, last, cfg);
      RestHolds(mc, cfg, online, last, Sim(d.target, d.idleSince, s.actions), times[1..]);
    }
  }

  lemma {:induction false} AtMostOne(mc: MapCfg, cfg: Config, online: nat, last: Option<int>, s: Sim, times: seq<int>)
    requires mc.enabled
    ensures var r := Simulate(mc, cfg, online, last, s, times);
            r.actions <= s.actions + 1 && (r.actions > s.actions ==> AtRest(mc, cfg, online, r.replicas))
    decreases times
  {
    if times != [] {
      var d := DecideMap(mc, s.replicas, Some(online), 0, times[0], s.idle, last, cfg);
      if d.action == Hold {
        AtMostOne(mc, cfg, online, last, Sim(d.target, d.idleSince, s.actions), times[1..]);
      } else {
        RestHolds(mc, cfg, online, last, Sim(d.target, d.idleSince, s.actions + 1), times[1..]);
      }
    }
  }

  /** A map that stays empty past the drain time, with no demand left inside the grace, is
      taken down to its floor. */
  lemma {:induction false} EmptyDrains(mc: MapCfg, cfg: Config, last: Option<int>, s: Sim, times: seq<int>)
    requires mc.enabled && s.replicas > Floor(mc) && Want(mc, Some(0), 0, cfg.playersPerInstance) <= s.replicas
             && times != []
    requires var end := times[|times| - 1];
             && end - (if s.idle.Some? then s.idle.value else times[0]) >= cfg.idleDrainSecs
             && (last.Some? ==> end - last.value >= cfg.demandGraceSecs)
    ensures Simulate(mc, cfg, 0, last, s, times).replicas == Floor(mc)
    decreases times
  {
    var d := DecideMap(mc, s.replicas, Some(0), 0, times[0], s.idle, last, cfg);
    var next := Sim(d.target, d.idleSince, s.actions + if d.action == Hold then 0 else 1);
    if d.action == Down {
      RestHolds(mc, cfg, 0, last, next, times[1..]);
    } else {
      EmptyDrains(mc, cfg, last, next, times[1..]);
    }
  }

  // ---------------------------------------------- settling, on runs of the ledger

  /** The actions a pass takes on one map. */
  function On(acts: seq<Actuation>, name: MapName): seq<Actuation> {
    if acts == [] then [] else (if acts[0].name == name then [acts[0]] else []) + On(acts[1..], name)
  }

  lemma OnHead(act: Actuation, more: seq<Actuation>, name: MapName)
    ensures On([act] + more, name) == (if act.name == name then [act] else []) + On(more, name)
    ensures [] + more == more
  {
    assert ([act] + more)[1..] == more;
  }

  lemma OtherTimersStay(t: Timers, other: MapName, d: Decision, name: MapName, cfg: Config, o: Observation, now: int)
    requires other != name && Tracked(o.mock, name)
    ensures forall mc: MapCfg | mc.name == name ::
              DecisionFor(Apply(t, other, d), mc, cfg, o, now) == DecisionFor(t, mc, cfg, o, now)
  {
    hide DecideMap;
  }

  /** A full tick acts on a map at most once, and as its decision says. */
  lemma {:induction false} TickActsOn(t: Timers, maps: seq<MapCfg>, cfg: Config, o: Observation, now: int,
                                      name: MapName)
    requires DistinctMaps(maps)
    ensures var acts, mc := TickMaps(t, maps, cfg, o, now).1, FindMap(maps, name);
            On(acts, name) ==
            if mc.Some? && Tracked(o.mock, name) then
              var d := DecisionFor(t, mc.value, cfg, o, now);
              if d.action == Hold then [] else [Actuation(name, d.action, d.target)]
            else []
    decreases maps
  {
    if maps != [] {
      var mc, rest := maps[0], maps[1..];
      FindMapIn(rest, name);
      hide DecideMap, On;
      if !Tracked(o.mock, mc.name) {
        TickActsOn(t, rest, cfg, o, now, name);
      } else {
        var d := DecisionFor(t, mc, cfg, o, now);
        var mid := Apply(t, mc.name, d);
        TickActsOn(mid, rest, cfg, o, now, name);
        OnHead(Actuation(mc.name, d.action, d.target), TickMaps(mid, rest, cfg, o, now).1, name);
        if mc.name == name {
          assert forall m | m in rest :: m.name != name;
        } else if Tracked(o.mock, name) {
          OtherTimersStay(t, mc.name, d, name, cfg, o, now);
        }
      }
    }
  }

  lemma {:induction false} QuietWake(maps: seq<MapCfg>, cfg: Config, mock: Option<map<MapName, int>>,
                                     demand: map<MapName, nat>,
                                     now: int, name: MapName)
    requires DemandFor(demand, name) == 0
    ensures On(WakeMaps(Demanded(maps, demand), cfg, mock, demand, now), name) == []
    decreases maps
  {
    hide WakeDecision;
    if maps != [] {
      QuietWake(maps[1..], cfg, mock, demand, now, name);
      if DemandFor(demand, maps[0].name) > 0 {
        var rest := Demanded(maps[1..], demand);
        var more := WakeMaps(rest, cfg, mock, demand, now);
        assert ([maps[0]] + rest)[1..] == rest;
        var acts := WakeAction(maps[0], cfg, mock, demand, now);
        if acts != [] { assert (acts + more)[1..] == more; } else { assert acts + more == more; }
        assert acts != [] ==> |acts| == 1 && acts[0].name == maps[0].name;
      } else {
        assert Demanded(maps, demand) == Demanded(maps[1..], demand);
      }
    }
  }

  /** The replicas of a map after the actions of a pass were applied. */
  function Applied(acts: seq<Actuation>, name: MapName, replicas: int): int {
    var on := On(acts, name);
    if on == [] then replicas else on[|on| - 1].target
  }

  predicate SameKnobs(a: Config, b: Config) {
    a.playersPerInstance == b.playersPerInstance && a.idleDrainSecs == b.idleDrainSecs
        && a.demandGraceSecs == b.demandGraceSecs
  }

  /** One map under passes that change nothing for it. */
  datatype Steady = Steady(name: MapName, mc: MapCfg, cfg: Config, online: nat)

  /** A pass brings the map no demand; a full tick that evaluates it reads the same
      population, and the replicas that the passes before it left. */
  predicate Calm(c: Steady, e: Event, replicas: int) {
    && DistinctMaps(e.cfg.maps)
    && match e
       case Wake(_, _, demand, _) => DemandFor(demand, c.name) == 0
       case Full(cfg, o, _) =>
         Tracked(o.mock, c.name) ==>
           && FindMap(cfg.maps, c.name) == Some(c.mc) && SameKnobs(cfg, c.cfg) && DemandFor(o.demand, c.name) == 0
           && OnlineFor(o.counts, c.name) == Some(c.online) && o.mock.value[c.name] == replicas
  }

  predicate CalmRun(c: Steady, t: Timers, replicas: int, es: seq<Event>)
    decreases es
  {
    es == [] ||
    (Calm(c, es[0], replicas) &&
     var (after, acts) := Step(t, es[0]); CalmRun(c, after, Applied(acts, c.name, replicas), es[1..]))
  }

  /** The replicas at the end of the passes, and how many actions they took on the map. */
  function Outcome(c: Steady, t: Timers, replicas: int, es: seq<Event>): (int, nat)
    decreases es
  {
    if es == [] then (replicas, 0)
    else
      var (after, acts) := Step(t, es[0]);
      var (r, n) := Outcome(c, after, Applied(acts, c.name, replicas), es[1..]);
      (r, |On(acts, c.name)| + n)
  }

  /** The times of the ticks that evaluate the map. */
  function Times(c: Steady, es: seq<Event>): seq<int> {
    if es == [] then []
    else (if es[0].Full? && Tracked(es[0].o.mock, c.name) then [es[0].now] else []) + Times(c, es[1..])
  }

  /** A decision looks at nothing else of the configuration. */
  lemma SameKnobsDecide(c: Steady, cfg: Config, replicas: int, now: int, t: Timers)
    requires SameKnobs(cfg, c.cfg)
    ensures var idle, last := Stored(t.idle, c.name), Stored(t.demand, c.name);
            var d := DecideMap(c.mc, replicas, Some(c.online), 0, now, idle, last, c.cfg);
            DecideMap(c.mc, replicas, Some(c.online), 0, now, idle, last, cfg) == d
            && d.lastDemand == last && (d.action == Hold ==> d.target == replicas)
  {
  }

  /** One calm pass is nothing, or one step of the simulation. */
  lemma CalmStep(c: Steady, t: Timers, replicas: int, e: Event)
    requires c.mc.enabled && c.mc.name == c.name && Calm(c, e, replicas)
    ensures var (after, acts) := Step(t, e);
            && Stored(after.demand, c.name) == Stored(t.demand, c.name)
            && if e.Full? && Tracked(e.o.mock, c.name) then
                 var d := DecideMap(c.mc, replicas, Some(c.online), 0, e.now, Stored(t.idle, c.name),
                                    Stored(t.demand, c.name), c.cfg);
                 && Stored(after.idle, c.name) == d.idleSince && Applied(acts, c.name, replicas) == d.target
                 && |On(acts, c.name)| == if d.action == Hold then 0 else 1
               else Stored(after.idle, c.name) == Stored(t.idle, c.name) && On(acts, c.name) == []
  {
    hide TickMaps, On, DecideMap, WakeMaps, Demanded, ArmGrace, FindMap;
    if e.Wake? {
      WakeIsPointwise(t.demand, e.cfg.maps, e.demand, e.now, c.name);
      QuietWake(e.cfg.maps, e.cfg, e.mock, e.demand, e.now, c.name);
    } else {
      if Tracked(e.o.mock, c.name) { SameKnobsDecide(c, e.cfg, replicas, e.now, t); }
      TickIsPointwise(t, e.cfg.maps, e.cfg, e.o, e.now, c.name);
      TickActsOn(t, e.cfg.maps, e.cfg, e.o, e.now, c.name);
    }
  }

  lemma {:induction false} CalmIsSimulated(c: Steady, t: Timers, replicas: int, es: seq<Event>, n: nat)
    requires c.mc.enabled && c.mc.name == c.name && CalmRun(c, t, replicas, es)
    ensures var s := Simulate(c.mc, c.cfg, c.online, Stored(t.demand, c.name),
                              Sim(replicas, Stored(t.idle, c.name), n), Times(c, es));
            Outcome(c, t, replicas, es) == (s.replicas, s.actions - n) && s.actions >= n
    decreases es
  {
    hide DecideMap, Step, Calm, On, Applied;
    if es != [] {
      CalmStep(c, t, replicas, es[0]);
      var (after, acts) := Step(t, es[0]);
      CalmIsSimulated(c, after, Applied(acts, c.name, replicas), es[1..], n + |On(acts, c.name)|);
      if es[0].Full? && Tracked(es[0].o.mock, c.name) {
        assert ([es[0].now] + Times(c, es[1..]))[1..] == Times(c, es[1..]);
      } else {
        AppliedNothing(acts, c.name, replicas);
        assert [] + Times(c, es[1..]) == Times(c, es[1..]);
      }
    }
  }

  lemma AppliedNothing(acts: seq<Actuation>, name: MapName, replicas: int)
    requires On(acts, name) == []
    ensures Applied(acts, name, replicas) == replicas
  {
  }

  /** No flapping: whatever the run before, however full ticks and wake passes interleave,
      a map whose population stays put is scaled at most once, and after that is at rest. */
  lemma AtMostOneAction(before: seq<Event>, c: Steady, replicas: int, es: seq<Event>)
    requires c.mc.enabled && c.mc.name == c.name && CalmRun(c, Run(before), replicas, es)
    ensures var (r, n) := Outcome(c, Run(before), replicas, es);
            n <= 1 && (n == 1 ==> AtRest(c.mc, c.cfg, c.online, r))
  {
    var t := Run(before);
    CalmIsSimulated(c, t, replicas, es, 0);
    AtMostOne(c.mc, c.cfg, c.online, Stored(t.demand, c.name), Sim(replicas, Stored(t.idle, c.name), 0), Times(c, es));
  }

  /** A map at rest is not scaled again. */
  lemma RestStays(before: seq<Event>, c: Steady, replicas: int, es: seq<Event>)
    requires c.mc.enabled && c.mc.name == c.name && CalmRun(c, Run(before), replicas, es)
    requires AtRest(c.mc, c.cfg, c.online, replicas)
    ensures Outcome(c, Run(before), replicas, es) == (replicas, 0)
  {
    var t := Run(before);
    CalmIsSimulated(c, t, replicas, es, 0);
    RestHolds(c.mc, c.cfg, c.online, Stored(t.demand, c.name), Sim(replicas, Stored(t.idle, c.name), 0), Times(c, es));
  }

  /** An empty map above its floor is down to it once a tick finds the drain time over
      and no remembered demand inside the grace. */
  lemma EmptyMapDrains(before: seq<Event>, c: Steady, replicas: int, es: seq<Event>)
    requires c.mc.enabled && c.mc.name == c.name && c.online == 0 && CalmRun(c, Run(before), replicas, es)
    requires replicas > Floor(c.mc) && Want(c.mc, Some(0), 0, c.cfg.playersPerInstance) <= replicas
             && Times(c, es) != []
    requires var t, times := Run(before), Times(c, es);
             var end := times[|times| - 1];
             && end - (if c.name in t.idle then t.idle[c.name] else times[0]) >= c.cfg.idleDrainSecs
             && (c.name in t.demand ==> end - t.demand[c.name] >= c.cfg.demandGraceSecs)
    ensures Outcome(c, Run(before), replicas, es).0 == Floor(c.mc)
  {
    hide Run, CalmRun, Outcome, DecideMap, Want;
    var t := Run(before);
    CalmIsSimulated(c, t, replicas, es, 0);
    EmptyDrains(c.mc, c.cfg, Stored(t.demand, c.name), Sim(replicas, Stored(t.idle, c.name), 0), Times(c, es));
  }
}
