/** Which tick of the events engine commits, told from its inputs and the tables it starts
    from: a read raises only where the tick consults it. */
module EventsReads {
  import opened Wrappers
  import opened Rewards
  import opened Events
  import opened EventsOps

  // ------------------------------------------------------------ what is consulted

  predicate DistinctIds(defs: seq<EventDef>) { forall i, j | 0 <= i < j < |defs| :: defs[i].id != defs[j].id }

  function ClaimOf(ev: EventDef, a: Account): ClaimId { (ev.id, ev.version, a) }

  /** Evaluating the event raises nothing: a race with anybody online reads the positions and
      has no winner who is offline, a milestone reads its qualifiers and finds those online
      whose claims are open. */
  predicate EventAnswers(db: Db, ev: EventDef, online: seq<Account>, r: Reading) {
    if ev.config.ZoneRace? then
      || (forall a | a in ev.config.participants :: a !in online)
      || (r.positions.Some?
          && var w := Winner(db, ev, ev.config.participants, r.positions.value); w.None? || w.value in online)
    else
      var quals := Qualifiers(ev.config, online, r);
      quals.Some? && forall a | a in quals.value :: a in online || Settled(db, ClaimOf(ev, a))
  }

  /** The boot pass over the event raises nothing. */
  predicate BackfillAnswers(db: Db, ev: EventDef, online: seq<Account>, r: Reading) {
    ev.config.ZoneRace? || !ev.enabled ||
    var quals := Qualifiers(ev.config, online, r);
    quals.Some? && forall a | a in quals.value :: a in online || ClaimOf(ev, a) in db.claims
  }

  /** Evaluating the event attempts the open claim. */
  predicate Attempts(db: Db, ev: EventDef, online: seq<Account>, r: Reading, c: ClaimId) {
    && c == ClaimOf(ev, c.2)
    && if ev.config.ZoneRace? then
         && (exists a | a in ev.config.participants :: a in online)
         && r.positions.Some? && Winner(db, ev, ev.config.participants, r.positions.value) == Some(c.2)
       else
         var quals := Qualifiers(ev.config, online, r); quals.Some? && c.2 in quals.value
  }

  /** The tick commits. */
  predicate TickAnswers(db: Db, t: Inputs) {
    var due := DueEvents(db, db.defs, t.now);
    var needed := due != [] || t.boot;
    && (needed ==> t.players.Some?)
    && var online := if needed then Accounts(t.players.value) else [];
       && (t.boot ==> forall ev | ev in db.defs :: BackfillAnswers(db, ev, online, t.bootReadings(ev.id)))
       && (forall ev | ev in due :: EventAnswers(db, ev, online, t.readings(ev.id)))
       && (forall c | c in t.retryOrder && RetryDue(db, c, t.now) && t.targets(c).QueryFails? ::
             exists ev | ev in due :: Attempts(db, ev, online, t.readings(ev.id), c))
  }

  // --------------------------------------------------------------- what is touched

  predicate SameClaim(db: Db, after: Db, c: ClaimId) {
    (c in after.claims <==> c in db.claims) && (c in db.claims ==> after.claims[c] == db.claims[c])
  }

  lemma OutcomeTouchesOne(pub: Publisher, db: Db, ev: EventDef, a: Account, now: int, announce: bool, grant: bool,
                          c: ClaimId)
    requires c != ClaimOf(ev, a)
    ensures var after := ApplyOutcome(pub, db, ev, a, now, announce, grant).0;
            SameClaim(db, after, c) && after.defs == db.defs
  {
    hide ApplyReward;
    var spec := if grant then ev.reward else NO_REWARD;
    RewardTouchesOne(pub, db, ClaimOf(ev, a), spec, now, announce && ev.announces, c);
    RewardKeepsDefs(pub, db, ClaimOf(ev, a), spec, now, announce && ev.announces);
  }

  /** An attempted claim is off the retry queue for a day: granted, parked, or postponed. */
  lemma AttemptedIsNotDue(pub: Publisher, db: Db, ev: EventDef, a: Account, now: int, announce: bool, grant: bool)
    ensures var after := ApplyOutcome(pub, db, ev, a, now, announce, grant).0;
            !RetryDue(after, ClaimOf(ev, a), now) && after.defs == db.defs && ClaimOf(ev, a) in after.claims
  {
    hide ApplyReward, FindDef;
    var c, spec := ClaimOf(ev, a), if grant then ev.reward else NO_REWARD;
    RewardKeepsDefs(pub, db, c, spec, now, announce && ev.announces);
    if !Settled(db, c) { RewardIsNotDue(pub, db, c, spec, now, announce && ev.announces); }
  }

  lemma RewardIsNotDue(pub: Publisher, db: Db, c: ClaimId, spec: Spec, now: int, announce: bool)
    requires StoredCursor(db, c) != Blank ==> c in db.claims
    ensures var after := ApplyReward(pub, db, c, spec, now, announce).0; !RetryDue(after, c, now) && c in after.claims
  {
    hide DeliverSteps, Remaining, CursorMatchesSpec, FindDef;
  }

  // ----------------------------------------------------------------- qualifiers

  lemma {:induction false} QualifiersIff(pub: Publisher, db: Db, ev: EventDef, quals: seq<Account>,
                                         online: seq<Account>, now: int)
    ensures EvalQualifiers(pub, db, ev, quals, online, now).1 <==>
            forall a | a in quals :: a in online || Settled(db, ClaimOf(ev, a))
    decreases quals
  {
    hide ApplyOutcome;
    if quals != [] {
      var a, rest := quals[0], quals[1..];
      assert a in quals && forall b | b in quals :: b == a || b in rest;
      if Settled(db, ClaimOf(ev, a)) {
        QualifiersIff(pub, db, ev, rest, online, now);
      } else if a in online {
        var after := ApplyOutcome(pub, db, ev, a, now, true, true).0;
        QualifiersIff(pub, after, ev, rest, online, now);
        forall b | b !in online ensures Settled(after, ClaimOf(ev, b)) == Settled(db, ClaimOf(ev, b)) {
          OutcomeTouchesOne(pub, db, ev, a, now, true, true, ClaimOf(ev, b));
        }
      }
    }
  }

  lemma {:induction false} QualifiersTouch(pub: Publisher, db: Db, ev: EventDef, quals: seq<Account>,
                                           online: seq<Account>,
                                           now: int, c: ClaimId)
    ensures var after := EvalQualifiers(pub, db, ev, quals, online, now).0;
            && after.defs == db.defs
            && (c != ClaimOf(ev, c.2) || c.2 !in online || c.2 !in quals ==> SameClaim(db, after, c))
    decreases quals
  {
    hide ApplyOutcome;
    if quals != [] {
      var a, rest := quals[0], quals[1..];
      if Settled(db, ClaimOf(ev, a)) {
        QualifiersTouch(pub, db, ev, rest, online, now, c);
      } else if a in online {
        var after := ApplyOutcome(pub, db, ev, a, now, true, true).0;
        QualifiersTouch(pub, after, ev, rest, online, now, c);
        AttemptedIsNotDue(pub, db, ev, a, now, true, true);
        if c != ClaimOf(ev, a) { OutcomeTouchesOne(pub, db, ev, a, now, true, true, c); }
      }
    }
  }

  lemma {:induction false} QualifiersLeave(pub: Publisher, db: Db, ev: EventDef, quals: seq<Account>,
                                           online: seq<Account>,
                                           now: int, c: ClaimId)
    requires EvalQualifiers(pub, db, ev, quals, online, now).1
    ensures RetryDue(EvalQualifiers(pub, db, ev, quals, online, now).0, c, now) <==>
            RetryDue(db, c, now) && !(c == ClaimOf(ev, c.2) && c.2 in quals)
    decreases quals
  {
    hide ApplyOutcome, FindDef;
    if quals != [] {
      var a, rest := quals[0], quals[1..];
      assert forall b :: b in quals <==> b == a || b in rest;
      if Settled(db, ClaimOf(ev, a)) {
        QualifiersLeave(pub, db, ev, rest, online, now, c);
      } else {
        var after := ApplyOutcome(pub, db, ev, a, now, true, true).0;
        QualifiersLeave(pub, after, ev, rest, online, now, c);
        AttemptedIsNotDue(pub, db, ev, a, now, true, true);
        if c != ClaimOf(ev, a) { OutcomeTouchesOne(pub, db, ev, a, now, true, true, c); }
      }
    }
  }

  // ------------------------------------------------------------------ one event

  lemma {:induction false} WinnerIsOpen(db: Db, ev: EventDef, participants: seq<Account>,
                                        positions: map<Account, Position>)
    requires ev.config.ZoneRace?
    ensures var w := Winner(db, ev, participants, positions); w.Some? ==> !Settled(db, ClaimOf(ev, w.value))
    decreases participants
  {
    if participants != [] { WinnerIsOpen(db, ev, participants[1..], positions); }
  }

  lemma EventIff(pub: Publisher, db: Db, ev: EventDef, online: seq<Account>, r: Reading, now: int)
    ensures EvaluateEvent(pub, db, ev, online, r, now).1 <==> EventAnswers(db, ev, online, r)
  {
    hide ApplyOutcome, Winner;
    if !ev.config.ZoneRace? {
      var quals := Qualifiers(ev.config, online, r);
      if quals.Some? { QualifiersIff(pub, db, ev, quals.value, online, now); }
    }
  }

  /** An event touches its own claims only. */
  lemma EventTouches(pub: Publisher, db: Db, ev: EventDef, online: seq<Account>, r: Reading, now: int, c: ClaimId)
    ensures var after := EvaluateEvent(pub, db, ev, online, r, now).0;
            after.defs == db.defs && (c.0 != ev.id ==> SameClaim(db, after, c))
  {
    hide ApplyOutcome, Winner, EvalQualifiers;
    if ev.config.ZoneRace? {
      if r.positions.Some? {
        var w := Winner(db, ev, ev.config.participants, r.positions.value);
        if w.Some? {
          AttemptedIsNotDue(pub, db, ev, w.value, now, true, true);
          if c.0 != ev.id { OutcomeTouchesOne(pub, db, ev, w.value, now, true, true, c); }
        }
      }
    } else {
      var quals := Qualifiers(ev.config, online, r);
      if quals.Some? { QualifiersTouch(pub, db, ev, quals.value, online, now, c); }
    }
  }

  /** What it attempts leaves the retry queue, and nothing else does. */
  lemma EventLeaves(pub: Publisher, db: Db, ev: EventDef, online: seq<Account>, r: Reading, now: int, c: ClaimId)
    requires EvaluateEvent(pub, db, ev, online, r, now).1
    ensures RetryDue(EvaluateEvent(pub, db, ev, online, r, now).0, c, now) <==>
            RetryDue(db, c, now) && !Attempts(db, ev, online, r, c)
  {
    hide ApplyOutcome, Winner, EvalQualifiers, FindDef;
    if ev.config.ZoneRace? {
      if r.positions.Some? {
        var w := Winner(db, ev, ev.config.participants, r.positions.value);
        if w.Some? {
          AttemptedIsNotDue(pub, db, ev, w.value, now, true, true);
          if c != ClaimOf(ev, w.value) { OutcomeTouchesOne(pub, db, ev, w.value, now, true, true, c); }
        }
      }
    } else {
      var quals := Qualifiers(ev.config, online, r);
      if quals.Some? { QualifiersLeave(pub, db, ev, quals.value, online, now, c); }
    }
  }

  // ------------------------------------------------------- the same consultation

  lemma {:induction false} SameWinner(db: Db, after: Db, ev: EventDef, participants: seq<Account>,
                                      positions: map<Account, Position>)
    requires ev.config.ZoneRace? && forall a :: SameClaim(db, after, ClaimOf(ev, a))
    ensures Winner(after, ev, participants, positions) == Winner(db, ev, participants, positions)
    decreases participants
  {
    if participants != [] {
      assert SameClaim(db, after, ClaimOf(ev, participants[0]));
      SameWinner(db, after, ev, participants[1..], positions);
    }
  }

  /** An event is asked the same of tables that differ in other claims, or, for a milestone,
      in those of online players. */
  lemma SameAnswers(db: Db, after: Db, ev: EventDef, online: seq<Account>, r: Reading)
    requires forall a | ev.config.ZoneRace? || a !in online :: SameClaim(db, after, ClaimOf(ev, a))
    ensures EventAnswers(after, ev, online, r) <==> EventAnswers(db, ev, online, r)
    ensures forall c: ClaimId :: Attempts(after, ev, online, r, c) <==> Attempts(db, ev, online, r, c)
  {
    hide Winner;
    if ev.config.ZoneRace? {
      if r.positions.Some? { SameWinner(db, after, ev, ev.config.participants, r.positions.value); }
    } else {
      forall a | a !in online ensures Settled(after, ClaimOf(ev, a)) == Settled(db, ClaimOf(ev, a)) {
        assert SameClaim(db, after, ClaimOf(ev, a));
      }
    }
  }

  // -------------------------------------------------------------- all due events

  predicate DueAnswer(db: Db, due: seq<EventDef>, online: seq<Account>, readings: EventId -> Reading) {
    forall ev | ev in due :: EventAnswers(db, ev, online, readings(ev.id))
  }

  predicate Attempted(db: Db, due: seq<EventDef>, online: seq<Account>, readings: EventId -> Reading, c: ClaimId) {
    exists ev | ev in due :: Attempts(db, ev, online, readings(ev.id), c)
  }

  lemma OthersSame(pub: Publisher, db: Db, ev: EventDef, rest: seq<EventDef>, online: seq<Account>,
                   readings: EventId -> Reading,
                   now: int)
    requires forall e | e in rest :: e.id != ev.id
    ensures var after := EvaluateEvent(pub, db, ev, online, readings(ev.id), now).0;
            && (DueAnswer(after, rest, online, readings) <==> DueAnswer(db, rest, online, readings))
            && (forall c :: Attempted(after, rest, online, readings, c) <==> Attempted(db, rest, online, readings, c))
  {
    hide EvaluateEvent, EventAnswers, Attempts;
    var after := EvaluateEvent(pub, db, ev, online, readings(ev.id), now).0;
    forall e | e in rest
      ensures EventAnswers(after, e, online, readings(e.id)) <==> EventAnswers(db, e, online, readings(e.id))
      ensures forall c: ClaimId :: Attempts(after, e, online, readings(e.id), c) <==>
              Attempts(db, e, online, readings(e.id), c)
    {
      forall a ensures SameClaim(db, after, ClaimOf(e, a)) {
        EventTouches(pub, db, ev, online, readings(ev.id), now, ClaimOf(e, a));
      }
      SameAnswers(db, after, e, online, readings(e.id));
    }
  }

  function Stamped(db: Db, ev: EventDef, r: Reading, now: int): Db {
    var poll := if ev.pollSeconds > 0 then ev.pollSeconds else DEFAULT_POLL_SECS;
    db.(nextDue := db.nextDue[ev.id := now + poll + r.jitter])
  }

  lemma DueUnfolds(pub: Publisher, db: Db, ev: EventDef, rest: seq<EventDef>, online: seq<Account>,
                   readings: EventId -> Reading, now: int)
    ensures EvaluateDue(pub, db, [], online, readings, now) == (db, true)
    ensures EvaluateDue(pub, db, [ev] + rest, online, readings, now) ==
            var (after, ok) := EvaluateEvent(pub, db, ev, online, readings(ev.id), now);
            if ok then EvaluateDue(pub, Stamped(after, ev, readings(ev.id), now), rest, online, readings, now)
            else (after, false)
  {
    hide EvaluateEvent;
    assert ([ev] + rest)[1..] == rest;
  }

  lemma StampedSame(db: Db, ev: EventDef, r: Reading, now: int, due: seq<EventDef>, online: seq<Account>,
                    readings: EventId -> Reading)
    ensures var after := Stamped(db, ev, r, now);
            && (DueAnswer(after, due, online, readings) <==> DueAnswer(db, due, online, readings))
            && (forall c :: Attempted(after, due, online, readings, c) <==> Attempted(db, due, online, readings, c))
            && (forall c :: RetryDue(after, c, now) <==> RetryDue(db, c, now))
  {
    hide EventAnswers, Attempts;
    var after := Stamped(db, ev, r, now);
    forall e | e in due
      ensures EventAnswers(after, e, online, readings(e.id)) <==> EventAnswers(db, e, online, readings(e.id))
      ensures forall c: ClaimId :: Attempts(after, e, online, readings(e.id), c) <==>
              Attempts(db, e, online, readings(e.id), c)
    {
      SameAnswers(db, after, e, online, readings(e.id));
    }
  }

  lemma {:induction false} DueIff(pub: Publisher, db: Db, due: seq<EventDef>, online: seq<Account>,
                                  readings: EventId -> Reading,
                                  now: int)
    requires DistinctIds(due)
    ensures var (after, ok) := EvaluateDue(pub, db, due, online, readings, now);
            && (ok <==> DueAnswer(db, due, online, readings))
            && (ok ==> forall c :: RetryDue(after, c, now) <==>
                RetryDue(db, c, now) && !Attempted(db, due, online, readings, c))
    decreases due
  {
    hide EvaluateEvent, EventAnswers, Attempts, RetryDue;
    if due != [] {
      var ev, rest := due[0], due[1..];
      var (after, ok) := EvaluateEvent(pub, db, ev, online, readings(ev.id), now);
      var stamped := Stamped(after, ev, readings(ev.id), now);
      assert forall e :: e in due <==> e == ev || e in rest;
      EventIff(pub, db, ev, online, readings(ev.id), now);
      OthersSame(pub, db, ev, rest, online, readings, now);
      StampedSame(after, ev, readings(ev.id), now, rest, online, readings);
      DueIff(pub, stamped, rest, online, readings, now);
      if ok {
        forall c: ClaimId
          ensures RetryDue(after, c, now) <==> RetryDue(db, c, now) && !Attempts(db, ev, online, readings(ev.id), c)
        {
          EventLeaves(pub, db, ev, online, readings(ev.id), now, c);
        }
      }
    }
  }

  // -------------------------------------------------------------------- boot pass

  lemma {:induction false} BackfillQualifiersIff(pub: Publisher, db: Db, ev: EventDef, quals: seq<Account>,
                                                 online: seq<Account>,
                                                 awardPast: bool, now: int)
    ensures BackfillQualifiers(pub, db, ev, quals, online, awardPast, now).1 <==>
            forall a | a in quals :: a in online || ClaimOf(ev, a) in db.claims
    decreases quals
  {
    hide ApplyOutcome;
    if quals != [] {
      var a, rest := quals[0], quals[1..];
      assert a in quals && forall b | b in quals :: b == a || b in rest;
      if ClaimOf(ev, a) in db.claims {
        BackfillQualifiersIff(pub, db, ev, rest, online, awardPast, now);
      } else if a in online {
        var after := ApplyOutcome(pub, db, ev, a, now, false, awardPast).0;
        BackfillQualifiersIff(pub, after, ev, rest, online, awardPast, now);
        forall b | b !in online ensures ClaimOf(ev, b) in after.claims <==> ClaimOf(ev, b) in db.claims {
          OutcomeTouchesOne(pub, db, ev, a, now, false, awardPast, ClaimOf(ev, b));
        }
      }
    }
  }

  /** The boot pass makes new claims of online players, and none of them is due for a retry. */
  ghost predicate Filled(db: Db, after: Db, ids: set<EventId>, online: seq<Account>, now: int) {
    && after.defs == db.defs
    && (forall c: ClaimId | c in db.claims || c.2 !in online || c.0 !in ids :: SameClaim(db, after, c))
    && (forall c: ClaimId :: RetryDue(after, c, now) <==> RetryDue(db, c, now))
  }

  lemma FilledTwice(db: Db, mid: Db, after: Db, ids: set<EventId>, more: set<EventId>, online: seq<Account>, now: int)
    requires Filled(db, mid, ids, online, now) && Filled(mid, after, more, online, now)
    ensures Filled(db, after, ids + more, online, now)
  {
    hide RetryDue;
    forall c: ClaimId | c in db.claims || c.2 !in online || c.0 !in ids + more ensures SameClaim(db, after, c) {
      assert SameClaim(db, mid, c) && SameClaim(mid, after, c);
    }
  }

  lemma OutcomeFills(pub: Publisher, db: Db, ev: EventDef, a: Account, online: seq<Account>, now: int, grant: bool)
    requires ClaimOf(ev, a) !in db.claims && a in online
    ensures Filled(db, ApplyOutcome(pub, db, ev, a, now, false, grant).0, {ev.id}, online, now)
  {
    hide ApplyOutcome, FindDef;
    var after := ApplyOutcome(pub, db, ev, a, now, false, grant).0;
    AttemptedIsNotDue(pub, db, ev, a, now, false, grant);
    forall c: ClaimId
      ensures c != ClaimOf(ev, a) ==> SameClaim(db, after, c)
      ensures RetryDue(after, c, now) <==> RetryDue(db, c, now)
    {
      if c != ClaimOf(ev, a) { OutcomeTouchesOne(pub, db, ev, a, now, false, grant, c); }
    }
  }

  lemma {:induction false} BackfillQualifiersFill(pub: Publisher, db: Db, ev: EventDef, quals: seq<Account>,
                                                  online: seq<Account>,
                                                  awardPast: bool, now: int)
    ensures Filled(db, BackfillQualifiers(pub, db, ev, quals, online, awardPast, now).0, {ev.id}, online, now)
    decreases quals
  {
    hide ApplyOutcome, RetryDue;
    if quals != [] {
      var a, rest := quals[0], quals[1..];
      if ClaimOf(ev, a) in db.claims {
        BackfillQualifiersFill(pub, db, ev, rest, online, awardPast, now);
      } else if a in online {
        var mid := ApplyOutcome(pub, db, ev, a, now, false, awardPast).0;
        OutcomeFills(pub, db, ev, a, online, now, awardPast);
        BackfillQualifiersFill(pub, mid, ev, rest, online, awardPast, now);
        FilledTwice(db, mid, BackfillQualifiers(pub, db, ev, quals, online, awardPast, now).0, {ev.id}, {ev.id},
                    online, now);
        assert {ev.id} + {ev.id} == {ev.id};
      }
    }
  }

  function MilestoneIds(events: seq<EventDef>): set<EventId> {
    if events == [] then {} else (if events[0].config.ZoneRace? then {} else {events[0].id}) + MilestoneIds(events[1..])
  }

  lemma {:induction false} MilestoneIdsAre(events: seq<EventDef>)
    ensures forall id :: id in MilestoneIds(events) <==> exists ev | ev in events :: ev.id == id && !ev.config.ZoneRace?
    decreases events
  {
    if events != [] {
      MilestoneIdsAre(events[1..]);
      assert forall ev :: ev in events <==> ev == events[0] || ev in events[1..];
    }
  }

  lemma SameBackfill(db: Db, after: Db, ev: EventDef, online: seq<Account>, r: Reading)
    requires forall a | a !in online :: SameClaim(db, after, ClaimOf(ev, a))
    ensures BackfillAnswers(after, ev, online, r) <==> BackfillAnswers(db, ev, online, r)
  {
    forall a | a !in online ensures ClaimOf(ev, a) in after.claims <==> ClaimOf(ev, a) in db.claims {
      assert SameClaim(db, after, ClaimOf(ev, a));
    }
  }

  lemma {:induction false} BackfillIff(pub: Publisher, db: Db, events: seq<EventDef>, online: seq<Account>,
                                       readings: EventId -> Reading, now: int)
    ensures var (after, ok) := Backfill(pub, db, events, online, readings, now);
            && (ok <==> forall ev | ev in events :: BackfillAnswers(db, ev, online, readings(ev.id)))
            && Filled(db, after, MilestoneIds(events), online, now)
    decreases events
  {
    hide BackfillQualifiers, RetryDue, Qualifiers;
    if events != [] {
      var ev, rest := events[0], events[1..];
      assert ev in events && forall e | e in events :: e == ev || e in rest;
      if ev.config.ZoneRace? || !ev.enabled {
        BackfillIff(pub, db, rest, online, readings, now);
        MoreIds(db, Backfill(pub, db, rest, online, readings, now).0, MilestoneIds(rest), MilestoneIds(events),
                online, now);
      } else {
        var quals := Qualifiers(ev.config, online, readings(ev.id));
        if quals.Some? {
          var (mid, ok) := BackfillQualifiers(pub, db, ev, quals.value, online, ev.config.awardPast, now);
          BackfillQualifiersIff(pub, db, ev, quals.value, online, ev.config.awardPast, now);
          BackfillQualifiersFill(pub, db, ev, quals.value, online, ev.config.awardPast, now);
          if ok {
            BackfillIff(pub, mid, rest, online, readings, now);
            forall e | e in rest
              ensures BackfillAnswers(mid, e, online, readings(e.id)) <==>
                      BackfillAnswers(db, e, online, readings(e.id))
            {
              SameBackfill(db, mid, e, online, readings(e.id));
            }
            FilledTwice(db, mid, Backfill(pub, mid, rest, online, readings, now).0, {ev.id}, MilestoneIds(rest),
                        online, now);
          } else {
            MoreIds(db, mid, {ev.id}, MilestoneIds(events), online, now);
          }
        }
      }
    }
  }

  lemma MoreIds(db: Db, after: Db, ids: set<EventId>, more: set<EventId>, online: seq<Account>, now: int)
    requires Filled(db, after, ids, online, now) && ids <= more
    ensures Filled(db, after, more, online, now)
  {
    hide RetryDue, SameClaim;
  }

  // ------------------------------------------------------------------- retry pass

  lemma {:induction false} RetryIff(pub: Publisher, db: Db, order: seq<ClaimId>, rows: set<ClaimId>,
                                    targets: ClaimId -> Target,
                                    now: int)
    ensures RetryPass(pub, db, order, rows, targets, now).1 <==>
            forall c | c in order && c in rows && FindDef(db.defs, c.0, c.1).Some? :: !targets(c).QueryFails?
    decreases order
  {
    hide ApplyOutcome, RecordMiss, FindDef;
    if order != [] {
      var c, rest := order[0], order[1..];
      var ev := FindDef(db.defs, c.0, c.1);
      assert c in order && forall d | d in order :: d == c || d in rest;
      if c !in rows || ev.None? {
        RetryIff(pub, db, rest, rows - {c}, targets, now);
      } else if targets(c).Nobody? {
        MissKeepsDefs(db, c, now);
        RetryIff(pub, RecordMiss(db, c, now), rest, rows - {c}, targets, now);
      } else if targets(c).Found? {
        AttemptedIsNotDue(pub, db, ev.value, c.2, now, false, true);
        RetryIff(pub, ApplyOutcome(pub, db, ev.value, c.2, now, false, true).0, rest, rows - {c}, targets, now);
      }
    }
  }

  lemma MissKeepsDefs(db: Db, c: ClaimId, now: int)
    ensures RecordMiss(db, c, now).defs == db.defs
  {
  }

  // --------------------------------------------------------------- the whole tick

  lemma {:induction false} DueInOrder(db: Db, defs: seq<EventDef>, now: int)
    requires DistinctIds(defs)
    ensures DistinctIds(DueEvents(db, defs, now))
    decreases defs
  {
    if defs != [] {
      DueInOrder(db, defs[1..], now);
      DueAreListed(db, defs[1..], now);
      var rest := DueEvents(db, defs[1..], now);
      forall e | e in rest ensures e.id != defs[0].id {
        var k :| 0 <= k < |defs[1..]| && defs[1..][k] == e;
        assert defs[k + 1] == e;
      }
    }
  }

  /** The boot pass changes nothing the due events consult, nor what they attempt. */
  lemma FilledAnswers(db: Db, filled: Db, defs: seq<EventDef>, due: seq<EventDef>, online: seq<Account>,
                      readings: EventId -> Reading, now: int)
    requires DistinctIds(defs) && Filled(db, filled, MilestoneIds(defs), online, now) && forall e | e in due ::
             e in defs
    ensures DueAnswer(filled, due, online, readings) <==> DueAnswer(db, due, online, readings)
    ensures forall c :: Attempted(filled, due, online, readings, c) <==> Attempted(db, due, online, readings, c)
  {
    hide EventAnswers, Attempts, RetryDue;
    MilestoneIdsAre(defs);
    forall e | e in due
      ensures EventAnswers(filled, e, online, readings(e.id)) <==> EventAnswers(db, e, online, readings(e.id))
      ensures forall c: ClaimId :: Attempts(filled, e, online, readings(e.id), c) <==>
              Attempts(db, e, online, readings(e.id), c)
    {
      if e.config.ZoneRace? { assert e.id !in MilestoneIds(defs) by { OneKind(defs, e); } }
      SameAnswers(db, filled, e, online, readings(e.id));
    }
  }

  lemma OneKind(defs: seq<EventDef>, e: EventDef)
    requires DistinctIds(defs) && e in defs
    ensures forall d | d in defs && d.id == e.id :: d == e
  {
  }

  /** A tick commits exactly when every read it consults answers: the players when an event
      is due or it boots; for each milestone of the boot pass its qualifiers, those offline
      claimed already; for each due event its own reads, with no open qualifier and no
      winner offline; and the target of each due retry that the tick has not attempted
      before it gets there. */
  lemma TickCommitsIff(pub: Publisher, db: Db, t: Inputs)
    requires DistinctIds(db.defs)
    ensures TickBody(pub, db, t).1 <==> TickAnswers(db, t)
  {
    hide Backfill, EvaluateDue, RetryPass, BackfillAnswers, EventAnswers, Attempts, RetryDue, FindDef, DueEvents,
        Accounts;
    var due := DueEvents(db, db.defs, t.now);
    var needed := due != [] || t.boot;
    if !needed || t.players.Some? {
      var online := if needed then Accounts(t.players.value) else [];
      DueInOrder(db, db.defs, t.now);
      DueAreListed(db, db.defs, t.now);
      var filled, ok := db, true;
      if t.boot {
        BackfillIff(pub, db, db.defs, online, t.bootReadings, t.now);
        filled, ok := Backfill(pub, db, db.defs, online, t.bootReadings, t.now).0,
          Backfill(pub, db, db.defs, online, t.bootReadings, t.now).1;
      }
      if ok { RestCommitsIff(pub, db, filled, t, due, online); }
    }
  }

  lemma RestCommitsIff(pub: Publisher, db: Db, filled: Db, t: Inputs, due: seq<EventDef>, online: seq<Account>)
    requires DistinctIds(db.defs) && DistinctIds(due) && (forall e | e in due :: e in db.defs)
    requires Filled(db, filled, MilestoneIds(db.defs), online, t.now)
    ensures var (evaluated, ok) := EvaluateDue(pub, filled, due, online, t.readings, t.now);
            && (ok <==> DueAnswer(db, due, online, t.readings))
            && (ok ==>
                  (RetryPass(pub, evaluated, t.retryOrder, RetryRows(evaluated, t.now), t.targets, t.now).1 <==>
                   forall c | c in t.retryOrder && RetryDue(db, c, t.now) && t.targets(c).QueryFails? ::
                     Attempted(db, due, online, t.readings, c)))
  {
    hide EvaluateDue, RetryPass, EventAnswers, Attempts, RetryDue, FindDef;
    FilledAnswers(db, filled, db.defs, due, online, t.readings, t.now);
    DueIff(pub, filled, due, online, t.readings, t.now);
    var evaluated := EvaluateDue(pub, filled, due, online, t.readings, t.now).0;
    RetryIff(pub, evaluated, t.retryOrder, RetryRows(evaluated, t.now), t.targets, t.now);
    RowsAreDue(evaluated, t.now);
  }

  lemma RowsAreDue(db: Db, now: int)
    ensures forall c :: c in RetryRows(db, now) <==> RetryDue(db, c, now)
    ensures forall c | RetryDue(db, c, now) :: FindDef(db.defs, c.0, c.1).Some?
  {
  }
}
