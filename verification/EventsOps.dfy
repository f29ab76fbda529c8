/** Every pass of the events engine, whatever it evaluates and wherever a read
    raises, is a list of three kinds of table operation. What each operation keeps,
    a whole tick keeps. */
module EventsOps {
  import opened Wrappers
  import opened Rewards
  import opened Events

  /** The three things a tick does to the tables. */
  datatype Op =
    | Apply(ev: EventDef, account: Account, now: int, announce: bool, grant: bool)
    | NoTarget(claim: ClaimId, at: int)
    | Stamp(id: EventId, due: int)

  function DoOp(pub: Publisher, db: Db, op: Op): Db {
    match op
    case Apply(ev, account, now, announce, grant) => ApplyOutcome(pub, db, ev, account, now, announce, grant).0
    case NoTarget(c, at) => RecordMiss(db, c, at)
    case Stamp(id, due) => db.(nextDue := db.nextDue[id := due])
  }

  /** A target is looked up only for a pending row. */
  ghost predicate Legal(db: Db, op: Op) {
    op.NoTarget? ==> op.claim in db.claims && db.claims[op.claim].status == Pending
  }

  function DoOps(pub: Publisher, db: Db, ops: seq<Op>): Db
    decreases ops
  {
    if ops == [] then db else DoOps(pub, DoOp(pub, db, ops[0]), ops[1..])
  }

  ghost predicate AllLegal(pub: Publisher, db: Db, ops: seq<Op>)
    decreases ops
  {
    ops == [] || (Legal(db, ops[0]) && AllLegal(pub, DoOp(pub, db, ops[0]), ops[1..]))
  }

  /** Every outcome applied is of one of the definitions, under its own reward or none. */
  predicate FromDefs(ops: seq<Op>, defs: seq<EventDef>) { forall op | op in ops && op.Apply? :: op.ev in defs }

  lemma {:induction false} OpsKeepDefs(pub: Publisher, db: Db, ops: seq<Op>)
    ensures DoOps(pub, db, ops).defs == db.defs
    decreases ops
  {
    if ops != [] {
      OpKeepsDefs(pub, db, ops[0]);
      OpsKeepDefs(pub, DoOp(pub, db, ops[0]), ops[1..]);
    }
  }

  lemma OpKeepsDefs(pub: Publisher, db: Db, op: Op)
    ensures DoOp(pub, db, op).defs == db.defs
  {
    hide ApplyReward;
    if op.Apply? {
      RewardKeepsDefs(pub, db, (op.ev.id, op.ev.version, op.account), if op.grant then op.ev.reward else NO_REWARD,
                      op.now, op.announce && op.ev.announces);
    }
  }

  lemma RewardKeepsDefs(pub: Publisher, db: Db, c: ClaimId, spec: Spec, now: int, announce: bool)
    ensures ApplyReward(pub, db, c, spec, now, announce).0.defs == db.defs
  {
    hide DeliverSteps, Remaining, CursorMatchesSpec;
  }

  lemma {:induction false} DueAreListed(db: Db, defs: seq<EventDef>, now: int)
    ensures forall ev | ev in DueEvents(db, defs, now) :: ev in defs
    decreases defs
  {
    if defs != [] { DueAreListed(db, defs[1..], now); }
  }

  ghost predicate Is(pub: Publisher, db: Db, ops: seq<Op>, after: Db) {
    AllLegal(pub, db, ops) && DoOps(pub, db, ops) == after
  }

  lemma {:induction false} OpsCompose(pub: Publisher, db: Db, a: seq<Op>, b: seq<Op>, mid: Db, after: Db)
    requires Is(pub, db, a, mid) && Is(pub, mid, b, after)
    ensures Is(pub, db, a + b, after)
    decreases a
  {
    hide DoOp, Legal;
    if a == [] {
      assert a + b == b;
    } else {
      OpsCompose(pub, DoOp(pub, db, a[0]), a[1..], b, mid, after);
      assert (a + b)[1..] == a[1..] + b;
    }
  }

  lemma NoOps(pub: Publisher, db: Db)
    ensures Is(pub, db, [], db)
  {
  }

  lemma OneOp(pub: Publisher, db: Db, op: Op)
    requires Legal(db, op)
    ensures Is(pub, db, [op], DoOp(pub, db, op))
  {
    assert AllLegal(pub, DoOp(pub, db, op), []);
    assert DoOps(pub, DoOp(pub, db, op), []) == DoOp(pub, db, op);
    assert [op][1..] == [];
  }

  lemma {:induction false} QualifierOps(pub: Publisher, db: Db, ev: EventDef, quals: seq<Account>,
                                        online: seq<Account>, now: int) returns (ops: seq<Op>)
    ensures Is(pub, db, ops, EvalQualifiers(pub, db, ev, quals, online, now).0) && FromDefs(ops, [ev])
    decreases quals
  {
    ops := [];
    if quals != [] {
      if Settled(db, (ev.id, ev.version, quals[0])) {
        ops := QualifierOps(pub, db, ev, quals[1..], online, now);
      } else if quals[0] in online {
        var op := Apply(ev, quals[0], now, true, true);
        OneOp(pub, db, op);
        var rest := QualifierOps(pub, DoOp(pub, db, op), ev, quals[1..], online, now);
        OpsCompose(pub, db, [op], rest, DoOp(pub, db, op), EvalQualifiers(pub, db, ev, quals, online, now).0);
        ops := [op] + rest;
      }
    }
  }

  lemma EventOps(pub: Publisher, db: Db, ev: EventDef, online: seq<Account>, r: Reading, now: int)
      returns (ops: seq<Op>)
    ensures Is(pub, db, ops, EvaluateEvent(pub, db, ev, online, r, now).0) && FromDefs(ops, [ev])
  {
    ops := [];
    if !ev.config.ZoneRace? {
      var quals := Qualifiers(ev.config, online, r);
      if quals.Some? {
        ops := QualifierOps(pub, db, ev, quals.value, online, now);
      }
    } else if r.positions.Some? {
      var w := Winner(db, ev, ev.config.participants, r.positions.value);
      if w.Some? && EvaluateEvent(pub, db, ev, online, r, now).0 != db {
        ops := [Apply(ev, w.value, now, true, true)];
        OneOp(pub, db, ops[0]);
      }
    }
  }

  lemma {:induction false} EvaluateOps(pub: Publisher, db: Db, due: seq<EventDef>, online: seq<Account>,
                                       readings: EventId -> Reading, now: int) returns (ops: seq<Op>)
    ensures Is(pub, db, ops, EvaluateDue(pub, db, due, online, readings, now).0) && FromDefs(ops, due)
    decreases due
  {
    ops := [];
    if due != [] {
      var ev := due[0];
      var (after, ok) := EvaluateEvent(pub, db, ev, online, readings(ev.id), now);
      ops := EventOps(pub, db, ev, online, readings(ev.id), now);
      if ok {
        var poll := if ev.pollSeconds > 0 then ev.pollSeconds else DEFAULT_POLL_SECS;
        var stamp := Stamp(ev.id, now + poll + readings(ev.id).jitter);
        OneOp(pub, after, stamp);
        OpsCompose(pub, db, ops, [stamp], after, DoOp(pub, after, stamp));
        var rest := EvaluateOps(pub, DoOp(pub, after, stamp), due[1..], online, readings, now);
        OpsCompose(pub, db, ops + [stamp], rest, DoOp(pub, after, stamp),
                   EvaluateDue(pub, db, due, online, readings, now).0);
        ops := ops + [stamp] + rest;
      }
    }
  }

  lemma {:induction false} BackfillQualifierOps(pub: Publisher, db: Db, ev: EventDef, quals: seq<Account>,
                                                online: seq<Account>, awardPast: bool, now: int) returns (ops: seq<Op>)
    ensures Is(pub, db, ops, BackfillQualifiers(pub, db, ev, quals, online, awardPast, now).0) && FromDefs(ops, [ev])
    decreases quals
  {
    ops := [];
    if quals != [] {
      if (ev.id, ev.version, quals[0]) in db.claims {
        ops := BackfillQualifierOps(pub, db, ev, quals[1..], online, awardPast, now);
      } else if quals[0] in online {
        var op := Apply(ev, quals[0], now, false, awardPast);
        OneOp(pub, db, op);
        var rest := BackfillQualifierOps(pub, DoOp(pub, db, op), ev, quals[1..], online, awardPast, now);
        OpsCompose(pub, db, [op], rest, DoOp(pub, db, op),
                   BackfillQualifiers(pub, db, ev, quals, online, awardPast, now).0);
        ops := [op] + rest;
      }
    }
  }

  lemma {:induction false} BackfillOps(pub: Publisher, db: Db, events: seq<EventDef>, online: seq<Account>,
                                       readings: EventId -> Reading, now: int) returns (ops: seq<Op>)
    ensures Is(pub, db, ops, Backfill(pub, db, events, online, readings, now).0) && FromDefs(ops, events)
    decreases events
  {
    ops := [];
    if events != [] {
      var ev := events[0];
      if ev.config.ZoneRace? || !ev.enabled {
        ops := BackfillOps(pub, db, events[1..], online, readings, now);
      } else {
        var quals := Qualifiers(ev.config, online, readings(ev.id));
        if quals.Some? {
          var (after, ok) := BackfillQualifiers(pub, db, ev, quals.value, online, ev.config.awardPast, now);
          ops := BackfillQualifierOps(pub, db, ev, quals.value, online, ev.config.awardPast, now);
          if ok {
            var rest := BackfillOps(pub, after, events[1..], online, readings, now);
            OpsCompose(pub, db, ops, rest, after, Backfill(pub, db, events, online, readings, now).0);
            ops := ops + rest;
          }
        }
      }
    }
  }

  lemma FoundDefMatches(defs: seq<EventDef>, id: EventId, version: int)
    ensures var d := FindDef(defs, id, version);
            d.Some? ==> d.value.id == id && d.value.version == version && d.value in defs
    decreases defs
  {}

  predicate Concerns(op: Op, d: ClaimId) {
    match op
    case Apply(ev, account, _, _, _) => d == (ev.id, ev.version, account)
    case NoTarget(c, _) => d == c
    case Stamp(_, _) => false
  }

  lemma OpTouchesOne(pub: Publisher, db: Db, op: Op, c: ClaimId)
    requires !Concerns(op, c)
    ensures var after := DoOp(pub, db, op);
            && (c in after.claims <==> c in db.claims) && (c in db.claims ==> after.claims[c] == db.claims[c])
  {
    if op.Apply? {
      hide DeliverSteps, Remaining;
      var d, spec := (op.ev.id, op.ev.version, op.account), if op.grant then op.ev.reward else NO_REWARD;
      RewardTouchesOne(pub, db, d, spec, op.now, op.announce && op.ev.announces, c);
    }
  }

  lemma RewardTouchesOne(pub: Publisher, db: Db, c: ClaimId, spec: Spec, now: int, announce: bool, d: ClaimId)
    requires d != c
    ensures var after := ApplyReward(pub, db, c, spec, now, announce).0;
            && (d in after.claims <==> d in db.claims) && (d in db.claims ==> after.claims[d] == db.claims[d])
  {
    hide DeliverSteps, Remaining;
  }

  lemma {:induction false} RetryOps(pub: Publisher, db: Db, order: seq<ClaimId>, rows: set<ClaimId>,
                                    targets: ClaimId -> Target, now: int) returns (ops: seq<Op>)
    requires forall c | c in rows :: c in db.claims && db.claims[c].status == Pending
    ensures Is(pub, db, ops, RetryPass(pub, db, order, rows, targets, now).0) && FromDefs(ops, db.defs)
    decreases order
  {
    hide ApplyOutcome, RecordMiss, FindDef, AllLegal, DoOps;
    ops := [];
    if order == [] {
      NoOps(pub, db);
    } else {
      var c := order[0];
      var ev := FindDef(db.defs, c.0, c.1);
      FoundDefMatches(db.defs, c.0, c.1);
      if c !in rows || ev.None? {
        ops := RetryOps(pub, db, order[1..], rows - {c}, targets, now);
      } else if targets(c).QueryFails? {
        NoOps(pub, db);
      } else {
        var op := if targets(c).Nobody? then NoTarget(c, now) else Apply(ev.value, c.2, now, false, true);
        OneOp(pub, db, op);
        OpKeepsDefs(pub, db, op);
        forall d | d in rows - {c}
          ensures d in DoOp(pub, db, op).claims && DoOp(pub, db, op).claims[d].status == Pending
        {
          OpTouchesOne(pub, db, op, d);
        }
        var rest := RetryOps(pub, DoOp(pub, db, op), order[1..], rows - {c}, targets, now);
        OpsCompose(pub, db, [op], rest, DoOp(pub, db, op), RetryPass(pub, db, order, rows, targets, now).0);
        ops := [op] + rest;
      }
    }
  }

  /** Whatever a tick does before it commits or raises is a list of legal ops. */
  lemma TickOps(pub: Publisher, db: Db, t: Inputs) returns (ops: seq<Op>)
    ensures Is(pub, db, ops, TickBody(pub, db, t).0) && FromDefs(ops, db.defs)
  {
    ops := [];
    var due := DueEvents(db, db.defs, t.now);
    var needed := due != [] || t.boot;
    DueAreListed(db, db.defs, t.now);
    if !needed || t.players.Some? {
      var online := if needed then Accounts(t.players.value) else [];
      var filled, ok := db, true;
      if t.boot {
        ops := BackfillOps(pub, db, db.defs, online, t.bootReadings, t.now);
        filled, ok := Backfill(pub, db, db.defs, online, t.bootReadings, t.now).0,
            Backfill(pub, db, db.defs, online, t.bootReadings, t.now).1;
      }
      if ok {
        var (evaluated, ok2) := EvaluateDue(pub, filled, due, online, t.readings, t.now);
        var more := EvaluateOps(pub, filled, due, online, t.readings, t.now);
        OpsCompose(pub, db, ops, more, filled, evaluated);
        ops := ops + more;
        OpsKeepDefs(pub, db, ops);
        if ok2 {
          var rest := RetryOps(pub, evaluated, t.retryOrder, RetryRows(evaluated, t.now), t.targets, t.now);
          OpsCompose(pub, db, ops, rest, evaluated, TickBody(pub, db, t).0);
          ops := ops + rest;
        }
      }
    }
  }
}
