/** What the events engine does when it acts: whom a tick pays and announces, whom a retry
    pays, what the boot pass gives, how long a failure waits. Stated on the tables, the
    calls and the readings, not through the engine's own selections. */
module EventsPays {
  import opened Wrappers
  import opened Rewards
  import opened Events
  import opened EventsOps
  import opened EventsSafety
  import opened EventsReads
  import opened EventsRuns

  // ------------------------------------------------------------ open and paid claims

  /** The tables are in order, and the claim is not settled and was not begun under another reward. */
  ghost predicate Open(db: Db, c: ClaimId, reward: Spec) {
    && AllAgree(db) && AllCount(db)
    && (c in db.claims ==> db.claims[c].status == Pending && CursorMatchesSpec(db.claims[c].cursor, reward))
  }

  /** Granted, every step of the reward paid once and in order, and so often announced. */
  ghost predicate PaidUp(db: Db, c: ClaimId, reward: Spec, told: nat) {
    && c in db.claims && db.claims[c].status == Granted
    && Mark(db, c.0) <= |db.log| && PaidSteps(Since(db, c), c) == Steps(reward)
    && Announcements(Since(db, c), c) == told
  }

  function Told(ev: EventDef): nat { if ev.announces then 1 else 0 }

  lemma ApplyPays(pub: Publisher, db: Db, ev: EventDef, a: Account, now: int, announce: bool)
    requires (forall n: nat :: pub(n) == 0) && !IsEmpty(ev.reward) && Open(db, ClaimOf(ev, a), ev.reward)
    ensures PaidUp(ApplyOutcome(pub, db, ev, a, now, announce, true).0, ClaimOf(ev, a), ev.reward,
                   if announce then Told(ev) else 0)
  {
    hide PaidSteps, Failures, Announcements, Remaining, DeliverSteps, Steps;
    var c := ClaimOf(ev, a);
    OpenClaimIsPaidInFull(pub, db, ev, a, now, announce);
    assert Counts(db, c) && Agrees(db, c);
    hide AllAgree, AllCount;
    var cursor := StoredCursor(db, c);
    var k := DeliverLogs(pub, db.log, c, Remaining(ev.reward, cursor), Mark(db, c.0), c);
    AnnounceLogs(DeliverSpec(pub, db, c, ev.reward, cursor, now).0, c, announce && ev.announces, Mark(db, c.0), c);
  }

  /** A paid claim stays as it is through whatever a tick does next. */
  lemma PaidStays(pub: Publisher, db: Db, ops: seq<Op>, after: Db, c: ClaimId, reward: Spec, told: nat)
    requires PaidUp(db, c, reward, told) && Is(pub, db, ops, after)
    ensures PaidUp(after, c, reward, told)
  {
    hide PaidSteps, Announcements, DoOps, AllLegal, Steps, Failures;
    SettledIsSilent(pub, db, ops, c, Mark(db, c.0));
  }

  lemma OpsKeepBoth(pub: Publisher, db: Db, ops: seq<Op>, after: Db)
    requires AllAgree(db) && AllCount(db) && Is(pub, db, ops, after)
    ensures AllAgree(after) && AllCount(after)
  {
    OpsKeep(pub, db, ops);
  }

  lemma OpenStays(db: Db, after: Db, c: ClaimId, reward: Spec)
    requires Open(db, c, reward) && AllAgree(after) && AllCount(after) && SameClaim(db, after, c)
    ensures Open(after, c, reward)
  {
  }

  // ---------------------------------------------------------------- evaluation pays

  lemma {:induction false} QualifiersPay(pub: Publisher, db: Db, ev: EventDef, quals: seq<Account>,
                                         online: seq<Account>,
                                         now: int, a: Account)
    requires (forall n: nat :: pub(n) == 0) && !IsEmpty(ev.reward) && Open(db, ClaimOf(ev, a), ev.reward)
    requires a in quals && EvalQualifiers(pub, db, ev, quals, online, now).1
    ensures PaidUp(EvalQualifiers(pub, db, ev, quals, online, now).0, ClaimOf(ev, a), ev.reward, Told(ev))
    decreases quals
  {
    hide ApplyOutcome, AllAgree, AllCount, PaidUp, CursorMatchesSpec, IsEmpty, AllLegal, DoOps;
    var b, rest, c := quals[0], quals[1..], ClaimOf(ev, a);
    if Settled(db, ClaimOf(ev, b)) {
      QualifiersPay(pub, db, ev, rest, online, now, a);
    } else {
      var op := Apply(ev, b, now, true, true);
      var after := ApplyOutcome(pub, db, ev, b, now, true, true).0;
      OneOp(pub, db, op);
      if b == a {
        ApplyPays(pub, db, ev, a, now, true);
        var ops := QualifierOps(pub, after, ev, rest, online, now);
        PaidStays(pub, after, ops, EvalQualifiers(pub, after, ev, rest, online, now).0, c, ev.reward, Told(ev));
      } else {
        OpsKeepBoth(pub, db, [op], after);
        OutcomeTouchesOne(pub, db, ev, b, now, true, true, c);
        OpenStays(db, after, c, ev.reward);
        QualifiersPay(pub, after, ev, rest, online, now, a);
      }
    }
  }

  lemma EventPays(pub: Publisher, db: Db, ev: EventDef, online: seq<Account>, r: Reading, now: int, c: ClaimId)
    requires (forall n: nat :: pub(n) == 0) && !IsEmpty(ev.reward) && Open(db, c, ev.reward)
    requires Attempts(db, ev, online, r, c) && EvaluateEvent(pub, db, ev, online, r, now).1
    ensures PaidUp(EvaluateEvent(pub, db, ev, online, r, now).0, c, ev.reward, Told(ev))
  {
    hide ApplyOutcome, Open, PaidUp, IsEmpty, Winner, EvalQualifiers;
    if ev.config.ZoneRace? {
      ApplyPays(pub, db, ev, c.2, now, true);
    } else {
      QualifiersPay(pub, db, ev, Qualifiers(ev.config, online, r).value, online, now, c.2);
    }
  }

  /** What an event does not attempt it leaves alone. */
  lemma EventLeavesAlone(pub: Publisher, db: Db, ev: EventDef, online: seq<Account>, r: Reading, now: int, c: ClaimId)
    requires !Attempts(db, ev, online, r, c)
    ensures SameClaim(db, EvaluateEvent(pub, db, ev, online, r, now).0, c)
  {
    hide ApplyOutcome, Winner, EvalQualifiers;
    if ev.config.ZoneRace? {
      if r.positions.Some? {
        var w := Winner(db, ev, ev.config.participants, r.positions.value);
        if w.Some? && c != ClaimOf(ev, w.value) { OutcomeTouchesOne(pub, db, ev, w.value, now, true, true, c); }
      }
    } else {
      var quals := Qualifiers(ev.config, online, r);
      if quals.Some? { QualifiersTouch(pub, db, ev, quals.value, online, now, c); }
    }
  }

  lemma StampKeepsOpen(db: Db, ev: EventDef, r: Reading, now: int, c: ClaimId, reward: Spec, told: nat)
    ensures var after := Stamped(db, ev, r, now);
            && (Open(db, c, reward) ==> Open(after, c, reward))
                && (PaidUp(db, c, reward, told) ==> PaidUp(after, c, reward, told))
  {
    var after := Stamped(db, ev, r, now);
    if Open(db, c, reward) {
      forall d: ClaimId ensures Agrees(after, d) && Counts(after, d) { assert Agrees(db, d) && Counts(db, d); }
    }
  }

  lemma EventKeepsOpen(pub: Publisher, db: Db, ev: EventDef, online: seq<Account>, r: Reading, now: int, c: ClaimId,
                       reward: Spec)
    requires Open(db, c, reward) && !Attempts(db, ev, online, r, c)
    ensures Open(EvaluateEvent(pub, db, ev, online, r, now).0, c, reward)
  {
    hide EvaluateEvent, AllAgree, AllCount, Attempts, CursorMatchesSpec, AllLegal, DoOps;
    var after := EvaluateEvent(pub, db, ev, online, r, now).0;
    EventLeavesAlone(pub, db, ev, online, r, now, c);
    var ops := EventOps(pub, db, ev, online, r, now);
    OpsKeepBoth(pub, db, ops, after);
    OpenStays(db, after, c, reward);
  }

  /** Over the due events: an open claim one of them attempts is paid, any other stays open. */
  lemma {:induction false} DuePay(pub: Publisher, db: Db, due: seq<EventDef>, online: seq<Account>,
                                  readings: EventId -> Reading,
                                  now: int, ev: EventDef, c: ClaimId)
    requires (forall n: nat :: pub(n) == 0) && !IsEmpty(ev.reward) && Open(db, c, ev.reward) && DistinctIds(due)
    requires ev in due && Attempts(db, ev, online, readings(ev.id), c)
             && EvaluateDue(pub, db, due, online, readings, now).1
    ensures PaidUp(EvaluateDue(pub, db, due, online, readings, now).0, c, ev.reward, Told(ev))
    decreases due
  {
    hide EvaluateEvent, Open, PaidUp, Attempts, IsEmpty, EventAnswers, AllLegal, DoOps, EvaluateDue;
    var e, rest := due[0], due[1..];
    assert due == [e] + rest;
    DueUnfolds(pub, db, e, rest, online, readings, now);
    var mid := EvaluateEvent(pub, db, e, online, readings(e.id), now).0;
    var stamped := Stamped(mid, e, readings(e.id), now);
    StampKeepsOpen(mid, e, readings(e.id), now, c, ev.reward, Told(ev));
    if e == ev {
      EventPays(pub, db, ev, online, readings(ev.id), now, c);
      var ops := EvaluateOps(pub, stamped, rest, online, readings, now);
      PaidStays(pub, stamped, ops, EvaluateDue(pub, stamped, rest, online, readings, now).0, c, ev.reward, Told(ev));
    } else {
      assert ev in rest;
      OthersAttempt(db, e, ev, online, readings, c);
      EventKeepsOpen(pub, db, e, online, readings(e.id), now, c, ev.reward);
      OthersSame(pub, db, e, [ev], online, readings, now);
      StampedSame(mid, e, readings(e.id), now, [ev], online, readings);
      assert Attempted(stamped, [ev], online, readings, c) by { assert Attempted(db, [ev], online, readings, c); }
      DuePay(pub, stamped, rest, online, readings, now, ev, c);
    }
  }

  lemma OthersAttempt(db: Db, e: EventDef, ev: EventDef, online: seq<Account>, readings: EventId -> Reading, c: ClaimId)
    requires e.id != ev.id && Attempts(db, ev, online, readings(ev.id), c)
    ensures !Attempts(db, e, online, readings(e.id), c)
  {
  }

  lemma {:induction false} DueKeepsOpen(pub: Publisher, db: Db, due: seq<EventDef>, online: seq<Account>,
                                        readings: EventId -> Reading, now: int, c: ClaimId, reward: Spec)
    requires Open(db, c, reward) && DistinctIds(due) && !Attempted(db, due, online, readings, c)
    ensures Open(EvaluateDue(pub, db, due, online, readings, now).0, c, reward)
    ensures SameClaim(db, EvaluateDue(pub, db, due, online, readings, now).0, c)
    decreases due
  {
    hide EvaluateEvent, Open, Attempts, EventAnswers;
    if due != [] {
      var e, rest := due[0], due[1..];
      assert e in due && forall d | d in rest :: d in due;
      var (mid, ok) := EvaluateEvent(pub, db, e, online, readings(e.id), now);
      EventKeepsOpen(pub, db, e, online, readings(e.id), now, c, reward);
      EventLeavesAlone(pub, db, e, online, readings(e.id), now, c);
      if ok {
        StampKeepsOpen(mid, e, readings(e.id), now, c, reward, 0);
        OthersSame(pub, db, e, rest, online, readings, now);
        StampedSame(mid, e, readings(e.id), now, rest, online, readings);
        DueKeepsOpen(pub, Stamped(mid, e, readings(e.id), now), rest, online, readings, now, c, reward);
      }
    }
  }

  // ------------------------------------------------------------------- retries pay

  /** A retry pays what is still owed, and says nothing. */
  lemma {:induction false} RetryPays(pub: Publisher, db: Db, order: seq<ClaimId>, rows: set<ClaimId>,
                                     targets: ClaimId -> Target,
                                     now: int, ev: EventDef, c: ClaimId)
    requires (forall n: nat :: pub(n) == 0) && !IsEmpty(ev.reward) && Open(db, c, ev.reward)
    requires c in order && c in rows && c == ClaimOf(ev, c.2) && FindDef(db.defs, c.0, c.1) == Some(ev)
             && targets(c).Found?
    requires forall d | d in rows :: d in db.claims && db.claims[d].status == Pending
    requires RetryPass(pub, db, order, rows, targets, now).1
    ensures PaidUp(RetryPass(pub, db, order, rows, targets, now).0, c, ev.reward, 0)
    decreases order
  {
    hide ApplyOutcome, RecordMiss, FindDef, Open, PaidUp, IsEmpty, AllLegal, DoOps, AllAgree, AllCount;
    var d, rest := order[0], order[1..];
    var found := FindDef(db.defs, d.0, d.1);
    FoundDefMatches(db.defs, d.0, d.1);
    if d !in rows || found.None? {
      RetryPays(pub, db, rest, rows - {d}, targets, now, ev, c);
    } else {
      var op := if targets(d).Nobody? then NoTarget(d, now) else Apply(found.value, d.2, now, false, true);
      var after := DoOp(pub, db, op);
      OneOp(pub, db, op);
      OpKeepsDefs(pub, db, op);
      forall x | x in rows - {d} ensures x in after.claims && after.claims[x].status == Pending {
        OpTouchesOne(pub, db, op, x);
      }
      if d == c {
        ApplyPays(pub, db, ev, c.2, now, false);
        var ops := RetryOps(pub, after, rest, rows - {d}, targets, now);
        PaidStays(pub, after, ops, RetryPass(pub, after, rest, rows - {d}, targets, now).0, c, ev.reward, 0);
      } else {
        OpTouchesOne(pub, db, op, c);
        OpenAfterOp(pub, db, op, c, ev.reward);
        RetryPays(pub, after, rest, rows - {d}, targets, now, ev, c);
      }
    }
  }

  lemma OpenAfterOp(pub: Publisher, db: Db, op: Op, c: ClaimId, reward: Spec)
    requires Open(db, c, reward) && !Concerns(op, c) && Legal(db, op)
    ensures Open(DoOp(pub, db, op), c, reward)
  {
    hide AllAgree, AllCount, DoOp, CursorMatchesSpec, AllLegal, DoOps;
    OneOp(pub, db, op);
    OpsKeepBoth(pub, db, [op], DoOp(pub, db, op));
    OpTouchesOne(pub, db, op, c);
  }

  // ---------------------------------------------------------------- who is attempted

  lemma {:induction false} LevelQualifiersAre(online: seq<Account>, levels: map<Account, int>, threshold: int,
                                              a: Account)
    ensures a in LevelQualifiers(online, levels, threshold) <==>
            a in online && (if a in levels then levels[a] else 0) >= threshold
    decreases online
  {
    if online != [] { LevelQualifiersAre(online[1..], levels, threshold, a); }
  }

  /** Inside the zone, by the straight distance, and with a claim still open. */
  predicate MayWin(db: Db, ev: EventDef, positions: map<Account, Position>, a: Account)
    requires ev.config.ZoneRace?
  {
    && a in positions
    && (ev.config.world == "" || positions[a].world == ev.config.world)
    && (var dx, dy, dz := positions[a].x - ev.config.x, positions[a].y - ev.config.y, positions[a].z - ev.config.z;
        dx * dx + dy * dy + dz * dz <= ev.config.radius * ev.config.radius)
    && !((ev.id, ev.version, a) in db.claims && db.claims[(ev.id, ev.version, a)].status != Pending)
  }

  lemma {:induction false} FirstWins(db: Db, ev: EventDef, participants: seq<Account>,
                                     positions: map<Account, Position>, i: nat)
    requires ev.config.ZoneRace? && i < |participants| && MayWin(db, ev, positions, participants[i])
    requires forall j | 0 <= j < i :: !MayWin(db, ev, positions, participants[j])
    ensures Winner(db, ev, participants, positions) == Some(participants[i])
    decreases participants
  {
    if i > 0 {
      assert !MayWin(db, ev, positions, participants[0]);
      FirstWins(db, ev, participants[1..], positions, i - 1);
    }
  }

  /** The player wins the event, told from the players online and what the game read for it. */
  predicate Qualifies(db: Db, ev: EventDef, players: seq<Account>, r: Reading, a: Account) {
    match ev.config
    case LevelMilestone(threshold, _) =>
      a in players && r.levels.Some? && (if a in r.levels.value then r.levels.value[a] else 0) >= threshold
    case TagMilestone(_) => r.holders.Some? && a in r.holders.value
    case ZoneRace(_, _, _, _, _, participants) =>
      && r.positions.Some? && (exists b | b in participants :: b in players)
      && exists i | 0 <= i < |participants| ::
           && participants[i] == a && MayWin(db, ev, r.positions.value, a)
           && forall j | 0 <= j < i :: !MayWin(db, ev, r.positions.value, participants[j])
  }

  lemma QualifierIsAttempted(db: Db, ev: EventDef, players: seq<Account>, r: Reading, a: Account)
    requires Qualifies(db, ev, players, r, a)
    ensures Attempts(db, ev, Accounts(players), r, ClaimOf(ev, a))
  {
    AccountsAreThePlayers(players);
    match ev.config
    case LevelMilestone(threshold, _) => LevelQualifiersAre(Accounts(players), r.levels.value, threshold, a);
    case TagMilestone(_) =>
    case ZoneRace(_, _, _, _, _, participants) =>
      hide MayWin;
      var i :| && 0 <= i < |participants| && participants[i] == a && MayWin(db, ev, r.positions.value, a)
               && forall j | 0 <= j < i :: !MayWin(db, ev, r.positions.value, participants[j]);
      FirstWins(db, ev, participants, r.positions.value, i);
  }

  lemma {:induction false} DueIsListed(db: Db, defs: seq<EventDef>, now: int, ev: EventDef)
    requires ev in defs && ev.enabled && (ev.id !in db.nextDue || db.nextDue[ev.id] <= now)
    ensures ev in DueEvents(db, defs, now)
    decreases defs
  {
    if ev != defs[0] { DueIsListed(db, defs[1..], now, ev); }
  }

  lemma {:induction false} OneDefFound(defs: seq<EventDef>, ev: EventDef)
    requires DistinctIds(defs) && ev in defs
    ensures FindDef(defs, ev.id, ev.version) == Some(ev)
    decreases defs
  {
    if ev != defs[0] {
      var k :| 0 <= k < |defs| && defs[k] == ev;
      assert defs[0].id != defs[k].id && defs[1..][k - 1] == ev;
      OneDefFound(defs[1..], ev);
    }
  }

  // ------------------------------------------------------------------- whole ticks

  /** A tick that commits pays and announces every player who wins a due event, in full,
      also one who was paid in part before: the event is enabled and its time has come, the
      claim is open, and the publisher answers 0. */
  lemma TickPaysQualifier(pub: Publisher, db: Db, t: Inputs, ev: EventDef, a: Account)
    requires (forall n: nat :: pub(n) == 0) && t.on && !t.boot && TickAnswers(db, t) && DistinctIds(db.defs)
    requires ev in db.defs && ev.enabled && (ev.id !in db.nextDue || db.nextDue[ev.id] <= t.now) && t.players.Some?
    requires Qualifies(db, ev, t.players.value, t.readings(ev.id), a) && !IsEmpty(ev.reward)
    requires Open(db, ClaimOf(ev, a), ev.reward)
    ensures PaidUp(RunTick(pub, db, t), ClaimOf(ev, a), ev.reward, Told(ev))
  {
    hide TickAnswers, EvaluateDue, RetryPass, Open, PaidUp, Attempts, IsEmpty, Qualifies, DueEvents, Accounts,
        AllLegal, DoOps;
    TickCommitsIff(pub, db, t);
    var due := DueEvents(db, db.defs, t.now);
    DueIsListed(db, db.defs, t.now, ev);
    DueInOrder(db, db.defs, t.now);
    DueAreListed(db, db.defs, t.now);
    var online := Accounts(t.players.value);
    QualifierIsAttempted(db, ev, t.players.value, t.readings(ev.id), a);
    DuePay(pub, db, due, online, t.readings, t.now, ev, ClaimOf(ev, a));
    var evaluated := EvaluateDue(pub, db, due, online, t.readings, t.now).0;
    RowsPend(evaluated, t.now);
    var ops := RetryOps(pub, evaluated, t.retryOrder, RetryRows(evaluated, t.now), t.targets, t.now);
    PaidStays(pub, evaluated, ops, TickBody(pub, db, t).0, ClaimOf(ev, a), ev.reward, Told(ev));
  }

  lemma RowsPend(db: Db, now: int)
    ensures forall c | c in RetryRows(db, now) :: c in db.claims && db.claims[c].status == Pending
  {
  }

  /** A tick that commits pays what every pending claim is still owed once its time has
      come: it may be paid as a winner of its event, or else by the retry, whose player is
      found and whose event still offers the reward it was begun under. */
  lemma TickPaysDueRetry(pub: Publisher, db: Db, t: Inputs, ev: EventDef, c: ClaimId) returns (told: nat)
    requires (forall n: nat :: pub(n) == 0) && t.on && !t.boot && TickAnswers(db, t) && DistinctIds(db.defs)
    requires ev in db.defs && c == ClaimOf(ev, c.2) && !IsEmpty(ev.reward) && Open(db, c, ev.reward)
    requires c in db.claims && db.claims[c].nextAttemptAt <= t.now && c in t.retryOrder && t.targets(c).Found?
    ensures PaidUp(RunTick(pub, db, t), c, ev.reward, told) && told <= Told(ev)
  {
    hide TickAnswers, EvaluateDue, RetryPass, PaidUp, Attempts, IsEmpty, DueEvents, Accounts, AllLegal, DoOps, AllAgree,
        EventAnswers, CursorMatchesSpec;
    TickCommitsIff(pub, db, t);
    var due := DueEvents(db, db.defs, t.now);
    DueInOrder(db, db.defs, t.now);
    DueAreListed(db, db.defs, t.now);
    OneDefFound(db.defs, ev);
    var online := if due != [] then Accounts(t.players.value) else [];
    var evaluated := EvaluateDue(pub, db, due, online, t.readings, t.now).0;
    RowsPend(evaluated, t.now);
    if e :| e in due && Attempts(db, e, online, t.readings(e.id), c) {
      SameEvent(db.defs, e, ev, db, online, t.readings(e.id), c);
      DuePay(pub, db, due, online, t.readings, t.now, ev, c);
      var ops := RetryOps(pub, evaluated, t.retryOrder, RetryRows(evaluated, t.now), t.targets, t.now);
      told := Told(ev);
      PaidStays(pub, evaluated, ops, TickBody(pub, db, t).0, c, ev.reward, told);
    } else {
      DueKeepsOpen(pub, db, due, online, t.readings, t.now, c, ev.reward);
      var ops := EvaluateOps(pub, db, due, online, t.readings, t.now);
      OpsKeepDefs(pub, db, ops);
      WaitingIsDue(evaluated, c, ev, t.now);
      told := 0;
      RetryPays(pub, evaluated, t.retryOrder, RetryRows(evaluated, t.now), t.targets, t.now, ev, c);
    }
  }

  lemma SameEvent(defs: seq<EventDef>, e: EventDef, ev: EventDef, db: Db, online: seq<Account>, r: Reading, c: ClaimId)
    requires DistinctIds(defs) && e in defs && ev in defs && c == ClaimOf(ev, c.2) && Attempts(db, e, online, r, c)
    ensures e == ev
  {
  }

  lemma WaitingIsDue(db: Db, c: ClaimId, ev: EventDef, now: int)
    requires Open(db, c, ev.reward) && c in db.claims && db.claims[c].nextAttemptAt <= now
    requires FindDef(db.defs, c.0, c.1) == Some(ev)
    ensures c in RetryRows(db, now)
  {
    assert Counts(db, c);
  }

  lemma {:induction false} ListedAreDue(db: Db, defs: seq<EventDef>, now: int)
    ensures forall ev | ev in DueEvents(db, defs, now) ::
              ev.enabled && (ev.id !in db.nextDue || db.nextDue[ev.id] <= now)
    decreases defs
  {
    if defs != [] { ListedAreDue(db, defs[1..], now); }
  }

  /** Nobody gets a claim of an event that is off or whose time has not come, nor one who
      does not win it. */
  lemma TickSkipsOthers(pub: Publisher, db: Db, t: Inputs, c: ClaimId)
    requires t.on && !t.boot && TickAnswers(db, t) && DistinctIds(db.defs) && AllAgree(db) && AllCount(db)
             && c !in db.claims
    requires forall ev | ev in db.defs && c == ClaimOf(ev, c.2) ::
               !ev.enabled || (ev.id in db.nextDue && db.nextDue[ev.id] > t.now)
               || (t.players.Some? && !Attempts(db, ev, Accounts(t.players.value), t.readings(ev.id), c))
    ensures var after := RunTick(pub, db, t);
            c !in after.claims && Mark(after, c.0) <= |after.log| && PaidSteps(Since(after, c), c) == []
  {
    hide TickAnswers, EvaluateDue, RetryPass, Attempts, DueEvents, Accounts, AllLegal, DoOps, EventAnswers, PaidSteps,
        RetryDue;
    TickCommitsIff(pub, db, t);
    var due := DueEvents(db, db.defs, t.now);
    ListedAreDue(db, db.defs, t.now);
    DueInOrder(db, db.defs, t.now);
    DueAreListed(db, db.defs, t.now);
    var online := if due != [] then Accounts(t.players.value) else [];
    NotAttempted(db, due, online, t.readings, c);
    var evaluated := EvaluateDue(pub, db, due, online, t.readings, t.now).0;
    DueKeepsOpen(pub, db, due, online, t.readings, t.now, c, NO_REWARD);
    RowsPend(evaluated, t.now);
    RetrySkips(pub, evaluated, t.retryOrder, RetryRows(evaluated, t.now), t.targets, t.now, c, |evaluated.log|);
    var ops := TickOps(pub, db, t);
    OpsKeepBoth(pub, db, ops, TickBody(pub, db, t).0);
    UnclaimedIsUnpaid(RunTick(pub, db, t), c);
  }

  lemma NotAttempted(db: Db, due: seq<EventDef>, online: seq<Account>, readings: EventId -> Reading, c: ClaimId)
    requires forall ev | ev in due && c == ClaimOf(ev, c.2) :: !Attempts(db, ev, online, readings(ev.id), c)
    ensures !Attempted(db, due, online, readings, c)
  {
  }

  lemma UnclaimedIsUnpaid(db: Db, c: ClaimId)
    requires AllAgree(db) && c !in db.claims
    ensures Mark(db, c.0) <= |db.log| && PaidSteps(Since(db, c), c) == []
  {
    assert Agrees(db, c);
  }

  // ----------------------------------------------------------------------- boot pass

  /** What the boot pass owes a player: the reward when past progress counts, nothing otherwise. */
  function BootReward(ev: EventDef): Spec
    requires !ev.config.ZoneRace?
  {
    if ev.config.awardPast then ev.reward else Spec(0, [], [])
  }

  lemma ApplySeals(pub: Publisher, db: Db, ev: EventDef, a: Account, now: int, grant: bool)
    requires AllAgree(db) && AllCount(db) && ClaimOf(ev, a) !in db.claims && (!grant || IsEmpty(ev.reward))
    ensures PaidUp(ApplyOutcome(pub, db, ev, a, now, false, grant).0, ClaimOf(ev, a), Spec(0, [], []), 0)
  {
    assert Agrees(db, ClaimOf(ev, a)) && Counts(db, ClaimOf(ev, a));
  }

  lemma EmptyPlan(spec: Spec)
    ensures IsEmpty(spec) ==> Steps(spec) == [] && Steps(Spec(0, [], [])) == []
  {
  }

  lemma BootApplies(pub: Publisher, db: Db, ev: EventDef, a: Account, now: int)
    requires (forall n: nat :: pub(n) == 0) && !ev.config.ZoneRace?
    requires AllAgree(db) && AllCount(db) && ClaimOf(ev, a) !in db.claims
    ensures PaidUp(ApplyOutcome(pub, db, ev, a, now, false, ev.config.awardPast).0, ClaimOf(ev, a), BootReward(ev), 0)
  {
    hide ApplyOutcome, AllAgree, AllCount, Steps;
    EmptyPlan(ev.reward);
    if ev.config.awardPast && !IsEmpty(ev.reward) {
      ApplyPays(pub, db, ev, a, now, false);
    } else {
      ApplySeals(pub, db, ev, a, now, ev.config.awardPast);
    }
  }

  lemma {:induction false} BackfillQualifiersPay(pub: Publisher, db: Db, ev: EventDef, quals: seq<Account>,
                                                 online: seq<Account>,
                                                 now: int, a: Account)
    requires (forall n: nat :: pub(n) == 0) && !ev.config.ZoneRace? && AllAgree(db) && AllCount(db)
    requires a in quals && ClaimOf(ev, a) !in db.claims
    requires BackfillQualifiers(pub, db, ev, quals, online, ev.config.awardPast, now).1
    ensures PaidUp(BackfillQualifiers(pub, db, ev, quals, online, ev.config.awardPast, now).0, ClaimOf(ev, a),
                   BootReward(ev), 0)
    decreases quals
  {
    hide ApplyOutcome, AllAgree, AllCount, PaidUp, BootReward, AllLegal, DoOps;
    var b, rest, c, past := quals[0], quals[1..], ClaimOf(ev, a), ev.config.awardPast;
    if ClaimOf(ev, b) in db.claims {
      BackfillQualifiersPay(pub, db, ev, rest, online, now, a);
    } else {
      var op := Apply(ev, b, now, false, past);
      var after := ApplyOutcome(pub, db, ev, b, now, false, past).0;
      OneOp(pub, db, op);
      if b == a {
        BootApplies(pub, db, ev, a, now);
        var ops := BackfillQualifierOps(pub, after, ev, rest, online, past, now);
        PaidStays(pub, after, ops, BackfillQualifiers(pub, after, ev, rest, online, past, now).0, c, BootReward(ev), 0);
      } else {
        OpsKeepBoth(pub, db, [op], after);
        OutcomeTouchesOne(pub, db, ev, b, now, false, past, c);
        BackfillQualifiersPay(pub, after, ev, rest, online, now, a);
      }
    }
  }

  lemma {:induction false} BackfillPays(pub: Publisher, db: Db, events: seq<EventDef>, online: seq<Account>,
                                        readings: EventId -> Reading, now: int, ev: EventDef, a: Account)
    requires (forall n: nat :: pub(n) == 0) && AllAgree(db) && AllCount(db) && DistinctIds(events) && ev in events
    requires !ev.config.ZoneRace? && ev.enabled && Qualifiers(ev.config, online, readings(ev.id)).Some?
    requires a in Qualifiers(ev.config, online, readings(ev.id)).value && ClaimOf(ev, a) !in db.claims
    requires Backfill(pub, db, events, online, readings, now).1
    ensures PaidUp(Backfill(pub, db, events, online, readings, now).0, ClaimOf(ev, a), BootReward(ev), 0)
    decreases events
  {
    hide BackfillQualifiers, AllAgree, AllCount, PaidUp, BootReward, AllLegal, DoOps, Qualifiers, RetryDue, FindDef;
    var e, rest, c := events[0], events[1..], ClaimOf(ev, a);
    if e == ev {
      var quals := Qualifiers(ev.config, online, readings(ev.id)).value;
      var mid := BackfillQualifiers(pub, db, ev, quals, online, ev.config.awardPast, now).0;
      BackfillQualifiersPay(pub, db, ev, quals, online, now, a);
      var ops := BackfillOps(pub, mid, rest, online, readings, now);
      PaidStays(pub, mid, ops, Backfill(pub, mid, rest, online, readings, now).0, c, BootReward(ev), 0);
    } else {
      assert ev in rest;
      if e.config.ZoneRace? || !e.enabled {
        BackfillPays(pub, db, rest, online, readings, now, ev, a);
      } else {
        var quals := Qualifiers(e.config, online, readings(e.id)).value;
        var mid := BackfillQualifiers(pub, db, e, quals, online, e.config.awardPast, now).0;
        var ops := BackfillQualifierOps(pub, db, e, quals, online, e.config.awardPast, now);
        OpsKeepBoth(pub, db, ops, mid);
        BackfillQualifiersFill(pub, db, e, quals, online, e.config.awardPast, now);
        assert SameClaim(db, mid, c);
        BackfillPays(pub, mid, rest, online, readings, now, ev, a);
      }
    }
  }

  /** At boot a committed tick gives whoever already meets an enabled milestone, and has no
      claim yet, a granted claim in silence: with the reward when past progress counts, and
      with nothing at all when it does not. */
  lemma BootTickGives(pub: Publisher, db: Db, t: Inputs, ev: EventDef, a: Account)
    requires (forall n: nat :: pub(n) == 0) && t.on && t.boot && TickAnswers(db, t) && DistinctIds(db.defs)
    requires AllAgree(db) && AllCount(db) && ev in db.defs && ev.enabled && !ev.config.ZoneRace?
             && ClaimOf(ev, a) !in db.claims
    requires t.players.Some? && Qualifies(db, ev, t.players.value, t.bootReadings(ev.id), a)
    ensures PaidUp(RunTick(pub, db, t), ClaimOf(ev, a), BootReward(ev), 0)
  {
    hide TickAnswers, EvaluateDue, RetryPass, Backfill, PaidUp, Attempts, DueEvents, Accounts, AllLegal, DoOps,
        AllAgree, AllCount,
        BootReward;
    TickCommitsIff(pub, db, t);
    var due, online := DueEvents(db, db.defs, t.now), Accounts(t.players.value);
    MilestoneQualifier(db, ev, t.players.value, t.bootReadings(ev.id), a);
    BackfillPays(pub, db, db.defs, online, t.bootReadings, t.now, ev, a);
    var filled := Backfill(pub, db, db.defs, online, t.bootReadings, t.now).0;
    var ops := EvaluateOps(pub, filled, due, online, t.readings, t.now);
    var evaluated := EvaluateDue(pub, filled, due, online, t.readings, t.now).0;
    PaidStays(pub, filled, ops, evaluated, ClaimOf(ev, a), BootReward(ev), 0);
    RowsPend(evaluated, t.now);
    var more := RetryOps(pub, evaluated, t.retryOrder, RetryRows(evaluated, t.now), t.targets, t.now);
    PaidStays(pub, evaluated, more, TickBody(pub, db, t).0, ClaimOf(ev, a), BootReward(ev), 0);
  }

  lemma MilestoneQualifier(db: Db, ev: EventDef, players: seq<Account>, r: Reading, a: Account)
    requires !ev.config.ZoneRace? && Qualifies(db, ev, players, r, a)
    ensures var quals := Qualifiers(ev.config, Accounts(players), r); quals.Some? && a in quals.value
  {
    QualifierIsAttempted(db, ev, players, r, a);
  }

  // -------------------------------------------------------------- failures and edits

  /** A delivery that fails counts one attempt, exhausts the row at the third, waits a day
      and announces nothing. */
  lemma FailureWaits(pub: Publisher, db: Db, ev: EventDef, a: Account, now: int, announce: bool)
    requires var c := ClaimOf(ev, a); c in db.claims ==> db.claims[c].status == Pending
    requires ApplyOutcome(pub, db, ev, a, now, announce, true).1 == Failed && !IsEmpty(ev.reward)
    requires StoredCursor(db, ClaimOf(ev, a)) == Blank || CursorMatchesSpec(StoredCursor(db, ClaimOf(ev, a)), ev.reward)
    ensures var c, after := ClaimOf(ev, a), ApplyOutcome(pub, db, ev, a, now, announce, true).0;
            var was := if c in db.claims then db.claims[c].attempts else 0;
            && c in after.claims && after.claims[c].attempts == was + 1 && after.claims[c].nextAttemptAt == now + 86400
            && (c in db.claims ==> after.claims[c].status == if was + 1 >= 3 then Exhausted else Pending)
            && (c !in db.claims ==> after.claims[c].status == Pending)
            && Announcements(after.log, c) == Announcements(db.log, c)
  {
    hide Remaining, CursorMatchesSpec, DeliverSteps;
    var c := ClaimOf(ev, a);
    var todo := Remaining(ev.reward, StoredCursor(db, c));
    var k := DeliverLogs(pub, db.log, c, todo, 0, c);
    var (log, failed) := DeliverSteps(pub, db.log, c, todo);
    assert log[0..] == log && db.log[0..] == db.log;
  }

  /** A claim begun under another reward is parked: nothing is paid or said, and it is out of
      attempts for good. */
  lemma EditedRewardParks(pub: Publisher, db: Db, ev: EventDef, a: Account, now: int, announce: bool)
    requires var c := ClaimOf(ev, a);
             && c in db.claims && db.claims[c].status == Pending && db.claims[c].cursor.Json?
             && db.claims[c].cursor.stage.Some? && db.claims[c].cursor.index >= 0
             && db.claims[c].cursor.hash.Some? && db.claims[c].cursor.hash != Some(ev.reward)
    requires !(ev.reward.currency == 0 && ev.reward.items == [] && ev.reward.xp == [])
    ensures var c, after := ClaimOf(ev, a), ApplyOutcome(pub, db, ev, a, now, announce, true).0;
            after == db.(claims := db.claims[c := db.claims[c].(status := Exhausted, attempts := 3)])
  {
  }

  /** An open claim whose event offers nothing is granted without a call. */
  lemma EmptyRewardSeals(pub: Publisher, db: Db, ev: EventDef, a: Account, now: int)
    requires var c := ClaimOf(ev, a); c in db.claims ==> db.claims[c].status == Pending
    requires ev.reward == Spec(0, [], [])
    ensures var c, after := ClaimOf(ev, a), ApplyOutcome(pub, db, ev, a, now, true, true).0;
            && c in after.claims && after.claims[c].status == Granted
            && after.log == db.log + if ev.announces then [Announce(c)] else []
  {
  }

  lemma {:induction false} RetrySkips(pub: Publisher, db: Db, order: seq<ClaimId>, rows: set<ClaimId>,
                                      targets: ClaimId -> Target,
                                      now: int, c: ClaimId, m: nat)
    requires c !in rows && m <= |db.log|
    ensures var after := RetryPass(pub, db, order, rows, targets, now).0;
            && SameClaim(db, after, c) && |db.log| <= |after.log|
            && PaidSteps(after.log[m..], c) == PaidSteps(db.log[m..], c)
            && Failures(after.log[m..], c) == Failures(db.log[m..], c)
    decreases order
  {
    hide ApplyReward, RecordFailed, FindDef, PaidSteps, Failures, Announcements;
    if order != [] {
      var d, rest := order[0], order[1..];
      var ev := FindDef(db.defs, d.0, d.1);
      FoundDefMatches(db.defs, d.0, d.1);
      if d !in rows || ev.None? {
        RetrySkips(pub, db, rest, rows - {d}, targets, now, c, m);
      } else if targets(d).Nobody? {
        MissLeavesOthers(db, d, now, c);
        RetrySkips(pub, RecordMiss(db, d, now), rest, rows - {d}, targets, now, c, m);
      } else if targets(d).Found? {
        var after := ApplyOutcome(pub, db, ev.value, d.2, now, false, true).0;
        OutcomeTouchesOne(pub, db, ev.value, d.2, now, false, true, c);
        OthersLogs(pub, db, d, ev.value.reward, now, false, m, c);
        RetrySkips(pub, after, rest, rows - {d}, targets, now, c, m);
      }
    }
  }

  lemma MissLeavesOthers(db: Db, d: ClaimId, now: int, c: ClaimId)
    requires c != d
    ensures SameClaim(db, RecordMiss(db, d, now), c) && RecordMiss(db, d, now).log == db.log
  {
  }

  /** The retry pass leaves a claim alone until its time, and for ever once it is settled or
      out of attempts. */
  lemma RetryWaits(pub: Publisher, db: Db, order: seq<ClaimId>, targets: ClaimId -> Target, now: int, c: ClaimId)
    requires c in db.claims && (db.claims[c].nextAttemptAt > now || db.claims[c].status != Pending
                                || db.claims[c].attempts >= 3)
    ensures var after := RetryPass(pub, db, order, RetryRows(db, now), targets, now).0;
            SameClaim(db, after, c) && PaidSteps(after.log, c) == PaidSteps(db.log, c)
                && Failures(after.log, c) == Failures(db.log, c)
  {
    hide RetryPass, FindDef, PaidSteps, Failures;
    RetrySkips(pub, db, order, RetryRows(db, now), targets, now, c, 0);
    var after := RetryPass(pub, db, order, RetryRows(db, now), targets, now).0;
    assert after.log[0..] == after.log && db.log[0..] == db.log;
  }

  /** A tick does nothing while the engine is off. */
  lemma OffDoesNothing(pub: Publisher, db: Db, t: Inputs)
    requires !t.on
    ensures RunTick(pub, db, t) == db
  {
  }

  lemma {:induction false} DueStamps(pub: Publisher, db: Db, due: seq<EventDef>, online: seq<Account>,
                                     readings: EventId -> Reading,
                                     now: int, id: EventId)
    requires EvaluateDue(pub, db, due, online, readings, now).1 && DistinctIds(due)
    ensures var after := EvaluateDue(pub, db, due, online, readings, now).0;
            && (forall ev | ev in due && ev.id == id ::
                  id in after.nextDue
                  && after.nextDue[id] == now + (if ev.pollSeconds > 0 then ev.pollSeconds else 7)
                      + readings(id).jitter)
            && ((forall ev | ev in due :: ev.id != id) ==>
                  (id in after.nextDue <==> id in db.nextDue)
                      && (id in db.nextDue ==> after.nextDue[id] == db.nextDue[id]))
    decreases due
  {
    hide EvaluateEvent;
    if due != [] {
      var ev, rest := due[0], due[1..];
      var mid := EvaluateEvent(pub, db, ev, online, readings(ev.id), now).0;
      EventKeepsStamps(pub, db, ev, online, readings(ev.id), now);
      assert forall e :: e in due <==> e == ev || e in rest;
      DueStamps(pub, Stamped(mid, ev, readings(ev.id), now), rest, online, readings, now, id);
    }
  }

  lemma EventKeepsStamps(pub: Publisher, db: Db, ev: EventDef, online: seq<Account>, r: Reading, now: int)
    ensures EvaluateEvent(pub, db, ev, online, r, now).0.nextDue == db.nextDue
  {
    hide ApplyOutcome, EvalQualifiers, Winner;
    if ev.config.ZoneRace? {
      if r.positions.Some? {
        var w := Winner(db, ev, ev.config.participants, r.positions.value);
        if w.Some? { OutcomeKeepsStamps(pub, db, ev, w.value, now, true, true); }
      }
    } else {
      var quals := Qualifiers(ev.config, online, r);
      if quals.Some? { QualifiersKeepStamps(pub, db, ev, quals.value, online, now); }
    }
  }

  lemma OutcomeKeepsStamps(pub: Publisher, db: Db, ev: EventDef, a: Account, now: int, announce: bool, grant: bool)
    ensures ApplyOutcome(pub, db, ev, a, now, announce, grant).0.nextDue == db.nextDue
  {
    hide DeliverSteps, Remaining, CursorMatchesSpec;
  }

  lemma {:induction false} QualifiersKeepStamps(pub: Publisher, db: Db, ev: EventDef, quals: seq<Account>,
                                                online: seq<Account>, now: int)
    ensures EvalQualifiers(pub, db, ev, quals, online, now).0.nextDue == db.nextDue
    decreases quals
  {
    hide ApplyOutcome;
    if quals != [] {
      QualifiersKeepStamps(pub, db, ev, quals[1..], online, now);
      OutcomeKeepsStamps(pub, db, ev, quals[0], now, true, true);
      QualifiersKeepStamps(pub, ApplyOutcome(pub, db, ev, quals[0], now, true, true).0, ev, quals[1..], online, now);
    }
  }

  /** A new event is switched off, gets an id of its own, and has nobody's claims. */
  lemma CreatedIsOff(db: Db, ev: EventDef)
    ensures var after := CreateEvent(db, ev); var n := |db.defs|;
            && after.defs[..n] == db.defs && |after.defs| == n + 1
            && after.defs[n] == ev.(id := db.nextId, version := 1, enabled := false)
            && after == db.(defs := after.defs, nextId := db.nextId + 1)
  {
  }

  /** An edit changes its own event only, and neither its id, its version, nor whether it is
      switched on; a switch changes only that. */
  lemma EditsKeep(db: Db, id: EventId, edited: EventDef, on: bool, i: nat)
    requires i < |db.defs|
    ensures var was, now := db.defs[i], UpdateEvent(db, id, edited).defs[i];
            && now == if was.id == id then edited.(id := was.id, version := was.version, enabled := was.enabled)
                else was
    ensures var was, now := db.defs[i], SetEnabled(db, id, on).defs[i];
            && now == if was.id == id then was.(enabled := on) else was
    ensures UpdateEvent(db, id, edited) == db.(defs := UpdateEvent(db, id, edited).defs)
    ensures SetEnabled(db, id, on) == db.(defs := SetEnabled(db, id, on).defs)
  {
  }

  /** A reset forgets the claims of its event and nothing else of the tables; a delete takes
      the event and its time as well. */
  lemma ResetForgets(db: Db, id: EventId, c: ClaimId)
    ensures var after := Forget(db, id);
            && (c in after.claims <==> c in db.claims && c.0 != id)
                && (c in after.claims ==> after.claims[c] == db.claims[c])
            && after.defs == db.defs && after.nextDue == db.nextDue && after.log == db.log
    ensures var after := DeleteEvent(db, id);
            && (c in after.claims <==> c in db.claims && c.0 != id)
                && (c in after.claims ==> after.claims[c] == db.claims[c])
            && id !in after.nextDue && after.log == db.log
            && forall ev :: ev in after.defs <==> ev in db.defs && ev.id != id
  {
    WithoutIs(db.defs, id);
  }

  lemma {:induction false} WithoutIs(defs: seq<EventDef>, id: EventId)
    ensures forall ev :: ev in WithoutEvent(defs, id) <==> ev in defs && ev.id != id
    decreases defs
  {
    if defs != [] {
      WithoutIs(defs[1..], id);
      assert forall ev :: ev in defs <==> ev == defs[0] || ev in defs[1..];
    }
  }
}
