/** The events database as the engine drives it, method by method tied to the
    functions of the same names on `Db`. */
module EventsStore {
  import opened Wrappers
  import opened Rewards
  import opened Events

  class Store {
    var defs: seq<EventDef>
    var nextId: EventId
    var claims: map<ClaimId, ClaimRow>
    var nextDue: map<EventId, int>
    var log: seq<Call>
    ghost var marks: map<EventId, nat>
    ghost var plans: map<ClaimId, Plan>
    ghost var misses: map<ClaimId, nat>

    ghost function Abs(): Db
      reads this
    {
      Db(defs, nextId, claims, nextDue, log, marks, plans, misses)
    }

    constructor ()
      ensures Abs() == Db([], 1, map[], map[], [], map[], map[], map[])
    {
      defs, nextId, claims, nextDue, log := [], 1, map[], map[], [];
      marks, plans, misses := map[], map[], map[];
    }

    method SealGranted(c: ClaimId)
      modifies this`claims
      ensures Abs() == Events.SealGranted(old(Abs()), c)
    {
      if c in claims {
        claims := claims[c := claims[c].(status := Granted, cursor := Blank)];
      } else {
        claims := claims[c := ClaimRow(Granted, Blank, 0, 0)];
      }
    }

    /** Insert as attempt 1, or bump the attempts and flip to exhausted at the limit. */
    method RecordFailed(c: ClaimId, cursor: Cursor, now: int)
      modifies this`claims
      ensures Abs() == Events.RecordFailed(old(Abs()), c, cursor, now)
    {
      if c !in claims {
        claims := claims[c := ClaimRow(Pending, cursor, 1, now + RETRY_BACKOFF_SECS)];
      } else {
        var n := claims[c].attempts + 1;
        claims := claims[c := ClaimRow(if n >= MAX_ATTEMPTS then Exhausted else Pending, cursor, n,
                                       now + RETRY_BACKOFF_SECS)];
      }
    }

    method RecordMiss(c: ClaimId, now: int)
      modifies this`claims, this`misses
      ensures Abs() == Events.RecordMiss(old(Abs()), c, now)
    {
      RecordFailed(c, if c in claims then claims[c].cursor else Blank, now);
      misses := misses[c := (if c in misses then misses[c] else 0) + 1];
    }

    /** Drive the remaining plan; stop at the first step the publisher refuses. */
    method Deliver(pub: Publisher, c: ClaimId, spec: Spec, cursor: Cursor) returns (failed: Option<RewardStep>)
      modifies this`log
      ensures (log, failed) == DeliverSteps(pub, old(log), c, Remaining(spec, cursor))
    {
      var todo := Remaining(spec, cursor);
      for i := 0 to |todo|
        invariant DeliverSteps(pub, log, c, todo[i..]) == DeliverSteps(pub, old(log), c, todo)
      {
        var rc := pub(|log|);
        log := log + [Grant(c, todo[i], rc)];
        if rc != 0 {
          return Some(todo[i]);
        }
      }
      failed := None;
    }

    method ApplyOutcome(pub: Publisher, ev: EventDef, account: Account, now: int, announce: bool, grant: bool)
        returns (outcome: Outcome)
      modifies this`claims, this`log, this`plans
      ensures (Abs(), outcome) == Events.ApplyOutcome(pub, old(Abs()), ev, account, now, announce, grant)
    {
      var c := (ev.id, ev.version, account);
      if c in claims && claims[c].status != Pending {
        return Skipped;
      }
      var cursor := if c in claims then claims[c].cursor else Blank;
      var spec := if grant then ev.reward else NO_REWARD;
      if IsEmpty(spec) {
        SealGranted(c);
      } else {
        if cursor != Blank && !CursorMatchesSpec(cursor, spec) {
          claims := claims[c := claims[c].(status := Exhausted, attempts := MAX_ATTEMPTS)];
          return Failed;
        }
        var failed := Deliver(pub, c, spec, cursor);
        plans := plans[c := Plan(spec, failed.None?)];
        if failed.Some? {
          RecordFailed(c, CursorOf(failed.value, spec), now);
          return Failed;
        }
        SealGranted(c);
      }
      if announce && ev.announces {
        log := log + [Announce(c)];
      }
      return Delivered;
    }

    method EvalQualifiers(pub: Publisher, ev: EventDef, quals: seq<Account>, online: seq<Account>, now: int)
        returns (ok: bool)
      modifies this`claims, this`log, this`plans
      ensures (Abs(), ok) == Events.EvalQualifiers(pub, old(Abs()), ev, quals, online, now)
    {
      for i := 0 to |quals|
        invariant defs == old(defs) && nextId == old(nextId) && nextDue == old(nextDue) && marks == old(marks)
        invariant Events.EvalQualifiers(pub, Abs(), ev, quals[i..], online, now) ==
                  Events.EvalQualifiers(pub, old(Abs()), ev, quals, online, now)
      {
        var c := (ev.id, ev.version, quals[i]);
        if !(c in claims && claims[c].status != Pending) {
          if quals[i] !in online {
            return false;
          }
          var _ := ApplyOutcome(pub, ev, quals[i], now, true, true);
        }
      }
      ok := true;
    }

    /** The race: the first open participant inside the zone, and nobody else this tick. */
    method EvalZone(pub: Publisher, ev: EventDef, online: seq<Account>, positions: Option<map<Account, Position>>,
                    now: int) returns (ok: bool)
      requires ev.config.ZoneRace?
      modifies this`claims, this`log, this`plans
      ensures (Abs(), ok) == Events.EvalZone(pub, old(Abs()), ev, online, positions, now)
    {
      var participants := ev.config.participants;
      if forall a | a in participants :: a !in online {
        return true;
      }
      if positions.None? {
        return false;
      }
      for i := 0 to |participants|
        invariant Abs() == old(Abs())
        invariant Winner(Abs(), ev, participants[i..], positions.value) ==
                  Winner(Abs(), ev, participants, positions.value)
      {
        var a := participants[i];
        var c := (ev.id, ev.version, a);
        if a in positions.value && InZone(ev.config, positions.value[a])
            && !(c in claims && claims[c].status != Pending) {
          if a !in online {
            return false;
          }
          var _ := ApplyOutcome(pub, ev, a, now, true, true);
          return true;
        }
      }
      ok := true;
    }

    method EvaluateEvent(pub: Publisher, ev: EventDef, online: seq<Account>, r: Reading, now: int) returns (ok: bool)
      modifies this`claims, this`log, this`plans
      ensures (Abs(), ok) == Events.EvaluateEvent(pub, old(Abs()), ev, online, r, now)
    {
      if ev.config.ZoneRace? {
        ok := EvalZone(pub, ev, online, r.positions, now);
      } else {
        var quals := Qualifiers(ev.config, online, r);
        if quals.None? {
          return false;
        }
        ok := EvalQualifiers(pub, ev, quals.value, online, now);
      }
    }

    method EvaluateDue(pub: Publisher, due: seq<EventDef>, online: seq<Account>, readings: EventId -> Reading,
                       now: int) returns (ok: bool)
      modifies this`claims, this`log, this`plans, this`nextDue
      ensures (Abs(), ok) == Events.EvaluateDue(pub, old(Abs()), due, online, readings, now)
    {
      for i := 0 to |due|
        invariant defs == old(defs) && nextId == old(nextId) && marks == old(marks)
        invariant Events.EvaluateDue(pub, Abs(), due[i..], online, readings, now) ==
                  Events.EvaluateDue(pub, old(Abs()), due, online, readings, now)
      {
        var ev := due[i];
        ok := EvaluateEvent(pub, ev, online, readings(ev.id), now);
        if !ok {
          return;
        }
        var poll := if ev.pollSeconds > 0 then ev.pollSeconds else DEFAULT_POLL_SECS;
        nextDue := nextDue[ev.id := now + poll + readings(ev.id).jitter];
      }
      ok := true;
    }

    method BackfillQualifiers(pub: Publisher, ev: EventDef, quals: seq<Account>, online: seq<Account>,
                              awardPast: bool, now: int) returns (ok: bool)
      modifies this`claims, this`log, this`plans
      ensures (Abs(), ok) == Events.BackfillQualifiers(pub, old(Abs()), ev, quals, online, awardPast, now)
    {
      for i := 0 to |quals|
        invariant defs == old(defs) && nextId == old(nextId) && nextDue == old(nextDue) && marks == old(marks)
        invariant Events.BackfillQualifiers(pub, Abs(), ev, quals[i..], online, awardPast, now)
               == Events.BackfillQualifiers(pub, old(Abs()), ev, quals, online, awardPast, now)
      {
        if (ev.id, ev.version, quals[i]) !in claims {
          if quals[i] !in online {
            return false;
          }
          var _ := ApplyOutcome(pub, ev, quals[i], now, false, awardPast);
        }
      }
      ok := true;
    }

    method Backfill(pub: Publisher, events: seq<EventDef>, online: seq<Account>, readings: EventId -> Reading,
                    now: int) returns (ok: bool)
      modifies this`claims, this`log, this`plans
      ensures (Abs(), ok) == Events.Backfill(pub, old(Abs()), events, online, readings, now)
    {
      for i := 0 to |events|
        invariant defs == old(defs) && nextId == old(nextId) && nextDue == old(nextDue) && marks == old(marks)
        invariant Events.Backfill(pub, Abs(), events[i..], online, readings, now) ==
                  Events.Backfill(pub, old(Abs()), events, online, readings, now)
      {
        var ev := events[i];
        if !ev.config.ZoneRace? && ev.enabled {
          var quals := Qualifiers(ev.config, online, readings(ev.id));
          if quals.None? {
            return false;
          }
          ok := BackfillQualifiers(pub, ev, quals.value, online, ev.config.awardPast, now);
          if !ok {
            return;
          }
        }
      }
      ok := true;
    }

    method RetryPass(pub: Publisher, order: seq<ClaimId>, targets: ClaimId -> Target, now: int) returns (ok: bool)
      modifies this`claims, this`log, this`plans, this`misses
      ensures (Abs(), ok) == Events.RetryPass(pub, old(Abs()), order, RetryRows(old(Abs()), now), targets, now)
    {
      var rows := set c | c in claims && claims[c].status == Pending && claims[c].attempts < MAX_ATTEMPTS
                          && claims[c].nextAttemptAt <= now && FindDef(defs, c.0, c.1).Some?;
      ghost var rows0 := rows;
      assert rows0 == RetryRows(Abs(), now);
      for i := 0 to |order|
        invariant defs == old(defs) && nextId == old(nextId) && nextDue == old(nextDue) && marks == old(marks)
        invariant Events.RetryPass(pub, Abs(), order[i..], rows, targets, now) ==
                  Events.RetryPass(pub, old(Abs()), order, rows0, targets, now)
      {
        var c := order[i];
        var ev := FindDef(defs, c.0, c.1);
        if c in rows && ev.Some? {
          match targets(c) {
            case QueryFails => return false;
            case Nobody => RecordMiss(c, now);
            case Found => var _ := ApplyOutcome(pub, ev.value, c.2, now, false, true);
          }
        }
        rows := rows - {c};
      }
      ok := true;
    }

    method FindDue(now: int) returns (due: seq<EventDef>)
      ensures due == DueEvents(Abs(), defs, now)
    {
      due := [];
      for i := 0 to |defs|
        invariant due + DueEvents(Abs(), defs[i..], now) == DueEvents(Abs(), defs, now)
      {
        if defs[i].enabled && (defs[i].id !in nextDue || nextDue[defs[i].id] <= now) {
          due := due + [defs[i]];
        }
      }
    }

    method TickBody(pub: Publisher, t: Inputs) returns (ok: bool)
      modifies this`claims, this`log, this`plans, this`nextDue, this`misses
      ensures (Abs(), ok) == Events.TickBody(pub, old(Abs()), t)
    {
      hide DueEvents, Accounts, Events.Backfill, Events.EvaluateDue, Events.RetryPass;
      var due := FindDue(t.now);
      var needed := due != [] || t.boot;
      if needed && t.players.None? {
        return false;
      }
      var online := if needed then Accounts(t.players.value) else [];
      if t.boot {
        ok := Backfill(pub, defs, online, t.bootReadings, t.now);
        if !ok {
          return;
        }
      }
      ok := EvaluateDue(pub, due, online, t.readings, t.now);
      if !ok {
        return;
      }
      ok := RetryPass(pub, t.retryOrder, t.targets, t.now);
    }

    /** One tick in one transaction: a read that raises restores the tables and
        leaves the calls made so far standing. */
    method RunTick(pub: Publisher, t: Inputs)
      modifies this
      ensures Abs() == Events.RunTick(pub, old(Abs()), t)
    {
      if !t.on {
        return;
      }
      var claims0, nextDue0 := claims, nextDue;
      ghost var plans0, misses0 := plans, misses;
      var ok := TickBody(pub, t);
      if !ok {
        claims, nextDue := claims0, nextDue0;
        plans, misses := plans0, misses0;
      }
    }

    method ResetClaims(id: EventId)
      modifies this
      ensures Abs() == Forget(old(Abs()), id)
    {
      claims := map c | c in claims && c.0 != id :: claims[c];
      marks := marks[id := |log|];
      plans := map c | c in plans && c.0 != id :: plans[c];
      misses := map c | c in misses && c.0 != id :: misses[c];
    }

    method DeleteEvent(id: EventId)
      modifies this
      ensures Abs() == Events.DeleteEvent(old(Abs()), id)
    {
      defs := WithoutEvent(defs, id);
      ResetClaims(id);
      nextDue := nextDue - {id};
    }
  }
}
