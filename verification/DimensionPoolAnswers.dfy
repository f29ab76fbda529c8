/** When one tick of the dimension pool spawns, reaps or holds, and what it then stores: each
    an exact condition on the rows, the stored keys and the configured numbers. */
module DimensionPoolAnswers {
  import opened Arith
  import opened Wrappers
  import opened DimensionPool
  import opened DimensionPoolRuns

  /** The live rows, in order. */
  function Live(rows: seq<Dim>): (live: seq<Dim>)
    ensures forall d :: d in live <==> d in rows && d.online
  {
    if rows == [] then [] else (if rows[0].online then [rows[0]] else []) + Live(rows[1..])
  }

  /** The players of rows that all have a count. */
  function PlayersOn(live: seq<Dim>): int {
    if live == [] then 0
    else PlayersOn(live[..|live| - 1]) + (match live[|live| - 1].players case None => 0 case Some(n) => n)
  }

  predicate Readable(rows: seq<Dim>) { forall d | d in rows && d.online :: d.players.Some? }

  /** A spawn is under way: its dimension is not live yet and started at most ten minutes ago. */
  predicate InFlight(s: State, rows: seq<Dim>, now: int) {
    && s.spawningPid.Some?
    && (forall d | d in rows && d.online :: d.pid != s.spawningPid.value)
    && (s.spawningAt.Some? ==> now - s.spawningAt.value <= 600)
  }

  /** The tick may act: every live row is readable, no spawn is under way, and the last action
      is the configured time back. */
  predicate MayAct(s: State, rows: seq<Dim>, cfg: Config, now: int) {
    && Readable(rows) && !InFlight(s, rows, now)
    && (s.lastSpawn.Some? ==> now - s.lastSpawn.value >= cfg.demandGraceSecs)
  }

  /** Dimensions are short of the warm floor, or the live ones are full and there is room. */
  predicate WantsMore(rows: seq<Dim>, cfg: Config) {
    var live := |Live(rows)|;
    || (live < cfg.minDims && live < cfg.maxDims && live < |rows|)
    || (1 <= live < cfg.maxDims && live < |rows| && PlayersOn(Live(rows)) >= live * cfg.playersPerDim)
  }

  /** A live dimension with nobody on it, empty for the drain time by its stored timer. */
  predicate Drained(s: State, rows: seq<Dim>, cfg: Config, now: int, pid: Pid) {
    && (exists d :: d in rows && d.online && d.pid == pid && d.players == Some(0))
    && (if pid in s.idle then now - s.idle[pid] else 0) >= cfg.idleDrainSecs
  }

  predicate LowestOffline(rows: seq<Dim>, pid: Pid) {
    && (exists d :: d in rows && !d.online && d.pid == pid)
    && (forall d | d in rows && !d.online :: pid <= d.pid)
  }

  // ------------------------------------------------------------- counts and sums

  lemma PlayersSplit(d: Dim, rest: seq<Dim>)
    ensures PlayersOn([d] + rest) == PlayersOn([d]) + PlayersOn(rest)
    decreases rest
  {
    assert [d][..0] == [];
    if rest == [] {
      assert [d] + rest == [d];
    } else {
      var all := [d] + rest;
      assert all[..|all| - 1] == [d] + rest[..|rest| - 1];
      PlayersSplit(d, rest[..|rest| - 1]);
    }
  }

  lemma PlayersOfOne(d: Dim)
    ensures PlayersOn([d]) == Players(d)
  {
    assert [d][..0] == [];
  }

  lemma {:induction false} Counted(rows: seq<Dim>)
    ensures LiveCount(rows) == |Live(rows)| <= |rows|
    ensures TotalPlayers(rows) == PlayersOn(Live(rows))
    decreases rows
  {
    if rows != [] {
      var rest := Live(rows[1..]);
      Counted(rows[1..]);
      hide PlayersOn;
      if rows[0].online {
        PlayersSplit(rows[0], rest);
        PlayersOfOne(rows[0]);
        assert Live(rows) == [rows[0]] + rest;
      } else {
        assert Live(rows) == rest;
      }
    } else {
      assert PlayersOn([]) == 0;
    }
  }

  // ------------------------------------------------------------------- spawning

  /** A tick spawns a dimension exactly when it may act, more are wanted, and that dimension
      is the lowest one that is offline. */
  lemma TickSpawnsIff(s: State, rows: seq<Dim>, cfg: Config, now: int, ok: bool, pid: Pid)
    ensures Tick(s, Some(rows), cfg, now, ok).1 == Spawn(pid) <==>
            MayAct(s, rows, cfg, now) && WantsMore(rows, cfg) && LowestOffline(rows, pid)
  {
    hide NextReap, NextOffline, LiveCount, TotalPlayers, Timers;
    Counted(rows);
    NextOfflineIsLeast(rows);
    OfflineIs(rows, pid);
    Wanted(rows, cfg);
  }

  lemma OfflineIs(rows: seq<Dim>, pid: Pid)
    ensures LowestOffline(rows, pid) <==> NextOffline(rows) == Some(pid)
  {
    hide NextOffline;
    NextOfflineIsLeast(rows);
    var next := NextOffline(rows);
    if LowestOffline(rows, pid) {
      assert pid in OfflinePids(rows);
      var d :| d in rows && !d.online && d.pid == next.value;
      assert pid == next.value;
    } else if next == Some(pid) {
      forall d | d in rows && !d.online ensures pid <= d.pid { assert d.pid in OfflinePids(rows); }
    }
  }

  lemma Wanted(rows: seq<Dim>, cfg: Config)
    ensures WantsMore(rows, cfg) <==>
            var live := LiveCount(rows);
            || live < Floor(cfg, rows)
            || (live >= 1 && live < Ceiling(cfg, rows) && TotalPlayers(rows) >= cfg.playersPerDim * live)
  {
    Counted(rows);
  }

  // -------------------------------------------------------------------- reaping

  /** A tick reaps a dimension exactly when it may act and does not spawn, more are live than
      the clamped floor, and that dimension is the highest drained one. */
  lemma TickReapsIff(s: State, rows: seq<Dim>, cfg: Config, now: int, ok: bool, pid: Pid)
    ensures Tick(s, Some(rows), cfg, now, ok).1 == Reap(pid) <==>
            && MayAct(s, rows, cfg, now) && !(WantsMore(rows, cfg) && exists d :: d in rows && !d.online)
            && |Live(rows)| > Max(0, Min(cfg.minDims, Min(cfg.maxDims, |rows|)))
            && Drained(s, rows, cfg, now, pid)
            && (forall q: Pid | Drained(s, rows, cfg, now, q) :: q <= pid)
  {
    hide NextReap, NextOffline, LiveCount, TotalPlayers, Timers, WantsMore, Drained, Live;
    Counted(rows);
    NextOfflineIsLeast(rows);
    Wanted(rows, cfg);
    assert OfflinePids(rows) == {} <==> forall d | d in rows :: d.online by { OfflineSome(rows); }
    if Readable(rows) { ReapIs(s, rows, cfg, now, pid); }
  }

  lemma OfflineSome(rows: seq<Dim>)
    ensures OfflinePids(rows) == {} <==> forall d | d in rows :: d.online
  {
    if d :| d in rows && !d.online { assert d.pid in OfflinePids(rows); }
  }

  lemma ReapIs(s: State, rows: seq<Dim>, cfg: Config, now: int, pid: Pid)
    requires Readable(rows)
    ensures NextReap(rows, Timers(rows, s.idle, now), now, cfg.idleDrainSecs) == Some(pid) <==>
            Drained(s, rows, cfg, now, pid) && forall q: Pid | Drained(s, rows, cfg, now, q) :: q <= pid
  {
    var timers := Timers(rows, s.idle, now);
    NextReapIsGreatest(rows, timers, now, cfg.idleDrainSecs);
    forall q: Pid
      ensures Drained(s, rows, cfg, now, q) <==>
              (exists d :: d in rows && d.pid == q) && q in timers && now - timers[q] >= cfg.idleDrainSecs
    {
      if q in timers { var d :| d in rows && d.online && Players(d) == 0 && d.pid == q; }
    }
    if Drained(s, rows, cfg, now, pid) { var d :| d in rows && d.pid == pid; }
  }

  // ------------------------------------------------------------ what is stored

  /** Every action stamps the cooldown, a started spawn is remembered, a landed or lapsed one
      is forgotten, and a tick that cannot read the rows changes nothing. */
  lemma TickStamps(s: State, rows: Option<seq<Dim>>, cfg: Config, now: int, ok: bool)
    ensures var (after, action) := Tick(s, rows, cfg, now, ok);
            if rows.None? then after == s && action == Hold
            else
              && after.lastSpawn == (if action == Hold then s.lastSpawn else Some(now))
              && after.spawningPid == (if ok && action.Spawn? then Some(action.pid)
                                       else if InFlight(s, rows.value, now) then s.spawningPid else None)
              && (ok && action.Spawn? ==> after.spawningAt == Some(now))
              && (InFlight(s, rows.value, now) ==> after.spawningAt == s.spawningAt)
              && (!Readable(rows.value) ==> after.idle == s.idle)
  {
    hide NextReap, NextOffline, LiveCount, TotalPlayers, Timers;
    if rows.Some? { assert !Readable(rows.value) <==> Unreadable(rows.value); }
  }

  /** Load spawns: in a pool that may act, with a dimension offline and room under the
      maximum, as many players as the live dimensions are meant for spawn one; and below the
      warm floor one is spawned whatever the load. */
  lemma LoadSpawns(s: State, rows: seq<Dim>, cfg: Config, now: int, ok: bool)
    requires MayAct(s, rows, cfg, now) && |Live(rows)| < cfg.maxDims && exists d :: d in rows && !d.online
    ensures Tick(s, Some(rows), cfg, now, ok).1.Spawn? <==>
            |Live(rows)| < cfg.minDims || (Live(rows) != []
                                           && PlayersOn(Live(rows)) >= |Live(rows)| * cfg.playersPerDim)
  {
    hide Tick, MayAct;
    NextOfflineIsLeast(rows);
    OfflineSome(rows);
    LiveShorter(rows);
    var p := NextOffline(rows).value;
    OfflineIs(rows, p);
    TickSpawnsIff(s, rows, cfg, now, ok, p);
    if Tick(s, Some(rows), cfg, now, ok).1.Spawn? {
      TickSpawnsIff(s, rows, cfg, now, ok, Tick(s, Some(rows), cfg, now, ok).1.pid);
    }
  }

  lemma {:induction false} LiveShorter(rows: seq<Dim>)
    ensures |Live(rows)| <= |rows| && ((exists d :: d in rows && !d.online) ==> |Live(rows)| < |rows|)
    decreases rows
  {
    if rows != [] {
      LiveShorter(rows[1..]);
      if d :| d in rows && !d.online { assert d == rows[0] || d in rows[1..]; }
    }
  }
}
