/** Theorems over whole runs of the events engine. */
module EventsRuns {
  import opened Wrappers
  import opened Rewards
  import opened Events
  import opened EventsOps
  import opened EventsSafety
  import opened EventsReads

  datatype Event =
    | Tick(inputs: Inputs)
    | Create(definition: EventDef)
    | Update(id: EventId, edited: EventDef)
    | Switch(id: EventId, enabled: bool)
    | Delete(id: EventId)
    | Reset(id: EventId)

  function Step(pub: Publisher, db: Db, e: Event): Db {
    match e
    case Tick(inputs) => RunTick(pub, db, inputs)
    case Create(definition) => CreateEvent(db, definition)
    case Update(id, edited) => UpdateEvent(db, id, edited)
    case Switch(id, enabled) => SetEnabled(db, id, enabled)
    case Delete(id) => DeleteEvent(db, id)
    case Reset(id) => Forget(db, id)
  }

  const EMPTY := Db([], 1, map[], map[], [], map[], map[], map[])

  function Run(pub: Publisher, es: seq<Event>): Db {
    if es == [] then EMPTY else Step(pub, Run(pub, es[..|es| - 1]), es[|es| - 1])
  }

  predicate Forgets(e: Event, c: ClaimId) {
    (e.Reset? || e.Delete?) && e.id == c.0
  }

  // ------------------------------------------------------ the rollback window

  predicate RollsBack(pub: Publisher, db: Db, e: Event) {
    e.Tick? && e.inputs.on && !TickBody(pub, db, e.inputs).1
  }

  predicate PaidSince(log: seq<Call>, m: nat) {
    exists i | m <= i < |log| :: log[i].Grant? && log[i].rc == 0
  }

  /** A game read fails in a tick that has already paid somebody. */
  predicate RaisesAfterPaying(pub: Publisher, db: Db, e: Event) {
    RollsBack(pub, db, e) && PaidSince(TickBody(pub, db, e.inputs).0.log, |db.log|)
  }

  predicate WrongSince(log: seq<Call>, m: nat) {
    exists i | m <= i < |log| :: log[i].Announce? || log[i].rc != 0
  }

  /** A game read fails in a tick that has already failed a delivery or announced one. */
  predicate RaisesAfterFailing(pub: Publisher, db: Db, e: Event) {
    RollsBack(pub, db, e) && WrongSince(TickBody(pub, db, e.inputs).0.log, |db.log|)
  }

  lemma {:induction false} PaidConcat(a: seq<Call>, b: seq<Call>, c: ClaimId)
    ensures PaidSteps(a + b, c) == PaidSteps(a, c) + PaidSteps(b, c)
    decreases |b|
  {
    if b == [] {
      assert a + b == a;
    } else {
      assert (a + b)[..|a + b| - 1] == a + b[..|b| - 1];
      PaidConcat(a, b[..|b| - 1], c);
    }
  }

  lemma {:induction false} PaidNonEmpty(log: seq<Call>, c: ClaimId)
    ensures PaidSteps(log, c) != [] <==>
            exists i | 0 <= i < |log| :: log[i].Grant? && log[i].rc == 0 && log[i].claim == c
    decreases |log|
  {
    if log != [] {
      PaidNonEmpty(log[..|log| - 1], c);
    }
  }

  /** What went wrong with a claim or was announced of it. */
  function Noise(log: seq<Call>, c: ClaimId): nat { Failures(log, c) + Announcements(log, c) }

  lemma {:induction false} NoiseConcat(a: seq<Call>, b: seq<Call>, c: ClaimId)
    ensures Failures(a + b, c) == Failures(a, c) + Failures(b, c)
    ensures Announcements(a + b, c) == Announcements(a, c) + Announcements(b, c)
    decreases |b|
  {
    if b == [] {
      assert a + b == a;
    } else {
      assert (a + b)[..|a + b| - 1] == a + b[..|b| - 1];
      NoiseConcat(a, b[..|b| - 1], c);
    }
  }

  lemma {:induction false} NoiseIsWrong(log: seq<Call>, c: ClaimId)
    ensures Noise(log, c) > 0 <==>
            exists i | 0 <= i < |log| :: log[i].claim == c && (log[i].Announce? || log[i].rc != 0)
    decreases |log|
  {
    if log != [] {
      NoiseIsWrong(log[..|log| - 1], c);
    }
  }

  lemma {:induction false} OpsExtendLog(pub: Publisher, db: Db, ops: seq<Op>)
    ensures |db.log| <= |DoOps(pub, db, ops).log| && DoOps(pub, db, ops).log[..|db.log|] == db.log
    ensures DoOps(pub, db, ops).marks == db.marks
    decreases ops
  {
    if ops != [] {
      OpExtendsLog(pub, db, ops[0]);
      OpsExtendLog(pub, DoOp(pub, db, ops[0]), ops[1..]);
      var mid, after := DoOp(pub, db, ops[0]).log, DoOps(pub, db, ops).log;
      assert after[..|db.log|] == after[..|mid|][..|db.log|];
    }
  }

  lemma OpExtendsLog(pub: Publisher, db: Db, op: Op)
    ensures var after := DoOp(pub, db, op);
            |db.log| <= |after.log| && after.log[..|db.log|] == db.log && after.marks == db.marks
  {
    if op.Apply? {
      RewardExtendsLog(pub, db, (op.ev.id, op.ev.version, op.account), if op.grant then op.ev.reward else NO_REWARD,
                       op.now,
                       op.announce && op.ev.announces);
    }
  }

  lemma RewardExtendsLog(pub: Publisher, db: Db, c: ClaimId, spec: Spec, now: int, announce: bool)
    ensures var after := ApplyReward(pub, db, c, spec, now, announce).0;
            |db.log| <= |after.log| && after.log[..|db.log|] == db.log && after.marks == db.marks
  {
    hide DeliverSteps, PaidSteps, Failures, Announcements, Remaining;
    var k := DeliverLogs(pub, db.log, c, Remaining(spec, StoredCursor(db, c)), |db.log|, c);
  }

  /** What the log of a rolled-back tick adds to the payments of one claim. */
  lemma RollbackAddsPayments(db: Db, log: seq<Call>, c: ClaimId)
    requires Mark(db, c.0) <= |db.log| <= |log| && log[..|db.log|] == db.log
    ensures PaidSteps(Since(db.(log := log), c), c) == PaidSteps(Since(db, c), c) + PaidSteps(log[|db.log|..], c)
  {
    var m := Mark(db, c.0);
    assert log[m..] == db.log[m..] + log[|db.log|..];
    PaidConcat(db.log[m..], log[|db.log|..], c);
  }

  lemma QuietRollbackKeeps(db: Db, log: seq<Call>)
    requires AllAgree(db) && |db.log| <= |log| && log[..|db.log|] == db.log && !PaidSince(log, |db.log|)
    ensures AllAgree(db.(log := log))
  {
    forall c: ClaimId ensures Agrees(db.(log := log), c) {
      assert Agrees(db, c);
      RollbackAddsPayments(db, log, c);
      PaidNonEmpty(log[|db.log|..], c);
      assert PaidSteps(Since(db.(log := log), c), c) == PaidSteps(Since(db, c), c);
    }
  }

  /** A payment kept in the log but rolled back in the table makes the row lie. */
  lemma PaidRollbackBreaks(db: Db, log: seq<Call>, c: ClaimId)
    requires Agrees(db, c) && !Settled(db, c) && |db.log| <= |log| && log[..|db.log|] == db.log
    requires PaidSteps(log[|db.log|..], c) != []
    ensures !Agrees(db.(log := log), c)
  {
    RollbackAddsPayments(db, log, c);
    var before, now := PaidSteps(Since(db, c), c), PaidSteps(Since(db.(log := log), c), c);
    assert |now| > |before|;
    if c in db.claims && CursorAtStop(db.claims[c], now) {
      CursorPinsStep(db.claims[c].cursor.hash.value, |before|, |now|);
    }
  }

  /** What the log of a rolled-back tick adds to the counts of one claim. */
  lemma RollbackAddsNoise(db: Db, log: seq<Call>, c: ClaimId)
    requires Mark(db, c.0) <= |db.log| <= |log| && log[..|db.log|] == db.log
    ensures var after := Since(db.(log := log), c);
            && Failures(after, c) == Failures(Since(db, c), c) + Failures(log[|db.log|..], c)
            && Announcements(after, c) == Announcements(Since(db, c), c) + Announcements(log[|db.log|..], c)
  {
    var m := Mark(db, c.0);
    assert log[m..] == db.log[m..] + log[|db.log|..];
    NoiseConcat(db.log[m..], log[|db.log|..], c);
  }

  lemma QuietRollbackCounts(db: Db, log: seq<Call>)
    requires AllCount(db) && |db.log| <= |log| && log[..|db.log|] == db.log && !WrongSince(log, |db.log|)
    ensures AllCount(db.(log := log))
  {
    forall c: ClaimId ensures Counts(db.(log := log), c) {
      assert Counts(db, c);
      RollbackAddsNoise(db, log, c);
      NoiseIsWrong(log[|db.log|..], c);
    }
  }

  /** A failure or an announcement kept in the log but rolled back in the table makes
      the row count wrong. */
  lemma WrongRollbackBreaks(db: Db, log: seq<Call>, c: ClaimId)
    requires Counts(db, c) && !Settled(db, c) && |db.log| <= |log| && log[..|db.log|] == db.log
    requires Noise(log[|db.log|..], c) > 0
    ensures !Counts(db.(log := log), c)
  {
    RollbackAddsNoise(db, log, c);
  }

  // --------------------------------------------------------------- each step

  lemma TableStepKeeps(db: Db, after: Db)
    requires after == db.(defs := after.defs, nextId := after.nextId)
    ensures AllAgree(db) <==> AllAgree(after)
    ensures AllCount(db) <==> AllCount(after)
  {
    forall c: ClaimId ensures (Agrees(db, c) <==> Agrees(after, c)) && (Counts(db, c) <==> Counts(after, c)) {}
  }

  lemma ForgetKeeps(db: Db, id: EventId)
    ensures AllAgree(db) ==> AllAgree(Forget(db, id))
    ensures AllCount(db) ==> AllCount(Forget(db, id))
  {
    var after := Forget(db, id);
    forall c: ClaimId ensures (Agrees(db, c) ==> Agrees(after, c)) && (Counts(db, c) ==> Counts(after, c)) {
      if c.0 == id { assert Since(after, c) == []; }
    }
  }

  lemma DeleteKeeps(db: Db, id: EventId)
    ensures AllAgree(db) ==> AllAgree(DeleteEvent(db, id))
    ensures AllCount(db) ==> AllCount(DeleteEvent(db, id))
  {
    var gone := Forget(db, id);
    var after := DeleteEvent(db, id);
    ForgetKeeps(db, id);
    forall c: ClaimId ensures (Agrees(gone, c) ==> Agrees(after, c)) && (Counts(gone, c) ==> Counts(after, c)) {}
  }

  lemma SettledAddsNothing(pub: Publisher, db: Db, ops: seq<Op>, c: ClaimId)
    requires AllLegal(pub, db, ops) && Settled(db, c)
    ensures var after := DoOps(pub, db, ops).log;
            |db.log| <= |after| && PaidSteps(after[|db.log|..], c) == [] && Noise(after[|db.log|..], c) == 0
  {
    SettledIsSilent(pub, db, ops, c, |db.log|);
    assert db.log[|db.log|..] == [];
  }

  /** The table stays true to the payments exactly when no read fails after a
      payment in the same tick. */
  lemma TickAgreesIff(pub: Publisher, db: Db, t: Inputs)
    requires AllAgree(db)
    ensures AllAgree(RunTick(pub, db, t)) <==> !RaisesAfterPaying(pub, db, Tick(t))
  {
    var ops := TickOps(pub, db, t);
    var (after, ok) := TickBody(pub, db, t);
    OpsKeep(pub, db, ops);
    OpsExtendLog(pub, db, ops);
    if t.on && !ok {
      if PaidSince(after.log, |db.log|) {
        var i :| |db.log| <= i < |after.log| && after.log[i].Grant? && after.log[i].rc == 0;
        var c := after.log[i].claim;
        var added := after.log[|db.log|..];
        assert added[i - |db.log|] == after.log[i];
        PaidNonEmpty(added, c);
        if Settled(db, c) { SettledAddsNothing(pub, db, ops, c); }
        assert Agrees(db, c);
        PaidRollbackBreaks(db, after.log, c);
      } else {
        QuietRollbackKeeps(db, after.log);
      }
    }
  }

  /** The table counts every attempt exactly when no read fails after a failed or an
      announced delivery in the same tick. */
  lemma TickCountsIff(pub: Publisher, db: Db, t: Inputs)
    requires AllCount(db)
    ensures AllCount(RunTick(pub, db, t)) <==> !RaisesAfterFailing(pub, db, Tick(t))
  {
    var ops := TickOps(pub, db, t);
    var (after, ok) := TickBody(pub, db, t);
    OpsKeep(pub, db, ops);
    OpsExtendLog(pub, db, ops);
    if t.on && !ok {
      if WrongSince(after.log, |db.log|) {
        var i :| |db.log| <= i < |after.log| && (after.log[i].Announce? || after.log[i].rc != 0);
        var c := after.log[i].claim;
        var added := after.log[|db.log|..];
        assert added[i - |db.log|] == after.log[i];
        NoiseIsWrong(added, c);
        if Settled(db, c) { SettledAddsNothing(pub, db, ops, c); }
        assert Counts(db, c);
        WrongRollbackBreaks(db, after.log, c);
      } else {
        QuietRollbackCounts(db, after.log);
      }
    }
  }

  lemma StepKeeps(pub: Publisher, db: Db, e: Event)
    ensures AllAgree(db) ==> (AllAgree(Step(pub, db, e)) <==> !RaisesAfterPaying(pub, db, e))
    ensures AllCount(db) ==> (AllCount(Step(pub, db, e)) <==> !RaisesAfterFailing(pub, db, e))
  {
    match e
    case Tick(inputs) =>
      if AllAgree(db) { TickAgreesIff(pub, db, inputs); }
      if AllCount(db) { TickCountsIff(pub, db, inputs); }
    case Delete(id) => DeleteKeeps(db, id);
    case Reset(id) => ForgetKeeps(db, id);
    case _ => TableStepKeeps(db, Step(pub, db, e));
  }

  // --------------------------------------------------------------- whole runs

  ghost predicate NeverRaisesAfterPaying(pub: Publisher, es: seq<Event>) {
    forall i | 0 <= i < |es| :: !RaisesAfterPaying(pub, Run(pub, es[..i]), es[i])
  }

  ghost predicate NeverRaisesAfterFailing(pub: Publisher, es: seq<Event>) {
    forall i | 0 <= i < |es| :: !RaisesAfterFailing(pub, Run(pub, es[..i]), es[i])
  }

  ghost predicate AlwaysAgrees(pub: Publisher, es: seq<Event>) {
    forall i | 0 <= i <= |es| :: AllAgree(Run(pub, es[..i]))
  }
  ghost predicate AlwaysCounts(pub: Publisher, es: seq<Event>) {
    forall i | 0 <= i <= |es| :: AllCount(Run(pub, es[..i]))
  }

  /** All through a run the tables agree with the payments exactly when no tick raises
      after paying, and count the attempts exactly when none raises after a failed or an
      announced delivery. */
  lemma {:induction false} RunKeepsIff(pub: Publisher, es: seq<Event>)
    ensures AlwaysAgrees(pub, es) <==> NeverRaisesAfterPaying(pub, es)
    ensures AlwaysCounts(pub, es) <==> NeverRaisesAfterFailing(pub, es)
    decreases |es|
  {
    hide AllAgree, AllCount, RaisesAfterPaying, RaisesAfterFailing, Step;
    if es == [] {
      assert es[..0] == [];
      EmptyKeeps();
    } else {
      var before := es[..|es| - 1];
      RunKeepsIff(pub, before);
      StepKeeps(pub, Run(pub, before), es[|es| - 1]);
      LastAgrees(pub, es);
      LastCounts(pub, es);
      hide AlwaysAgrees, AlwaysCounts, NeverRaisesAfterPaying, NeverRaisesAfterFailing;
    }
  }

  lemma LastAgrees(pub: Publisher, es: seq<Event>)
    requires es != []
    ensures var before := es[..|es| - 1];
            && (AlwaysAgrees(pub, es) <==> AlwaysAgrees(pub, before) && AllAgree(Run(pub, es)))
            && (AlwaysAgrees(pub, before) ==> AllAgree(Run(pub, before)))
            && (NeverRaisesAfterPaying(pub, es) <==>
                  NeverRaisesAfterPaying(pub, before) && !RaisesAfterPaying(pub, Run(pub, before), es[|es| - 1]))
  {
    hide AllAgree, RaisesAfterPaying, Run;
    var before := es[..|es| - 1];
    assert forall i | 0 <= i <= |before| :: before[..i] == es[..i];
    assert before[..|before|] == before && es[..|es|] == es;
  }

  lemma LastCounts(pub: Publisher, es: seq<Event>)
    requires es != []
    ensures var before := es[..|es| - 1];
            && (AlwaysCounts(pub, es) <==> AlwaysCounts(pub, before) && AllCount(Run(pub, es)))
            && (AlwaysCounts(pub, before) ==> AllCount(Run(pub, before)))
            && (NeverRaisesAfterFailing(pub, es) <==>
                  NeverRaisesAfterFailing(pub, before) && !RaisesAfterFailing(pub, Run(pub, before), es[|es| - 1]))
  {
    hide AllCount, RaisesAfterFailing, Run;
    var before := es[..|es| - 1];
    assert forall i | 0 <= i <= |before| :: before[..i] == es[..i];
    assert before[..|before|] == before && es[..|es|] == es;
  }

  lemma EmptyKeeps()
    ensures AllAgree(EMPTY) && AllCount(EMPTY)
  {
    forall c: ClaimId ensures Agrees(EMPTY, c) && Counts(EMPTY, c) {}
  }

  // ------------------------------------------------------- plans that were held

  predicate Offers(defs: seq<EventDef>, c: ClaimId, spec: Spec) {
    exists d | d in defs :: d.id == c.0 && d.version == c.1 && d.reward == spec
  }

  /** The plan of the claim is the one it had, or the reward its event now has. */
  predicate PlanHeld(db: Db, after: Db, c: ClaimId) {
    c in after.plans ==>
      (c in db.plans && after.plans[c].spec == db.plans[c].spec) || Offers(db.defs, c, after.plans[c].spec)
  }

  lemma OpPlans(pub: Publisher, db: Db, op: Op, c: ClaimId)
    requires op.Apply? ==> op.ev in db.defs
    ensures PlanHeld(db, DoOp(pub, db, op), c)
  {
    hide ApplyReward, Offers;
    if op.Apply? {
      var d := (op.ev.id, op.ev.version, op.account);
      if op.grant && c == d { assert Offers(db.defs, c, op.ev.reward) by { OffersOwn(db.defs, op.ev, c); } }
      RewardPlans(pub, db, d, if op.grant then op.ev.reward else NO_REWARD, op.now, op.announce && op.ev.announces, c);
    }
  }

  lemma OffersOwn(defs: seq<EventDef>, ev: EventDef, c: ClaimId)
    requires ev in defs && c.0 == ev.id && c.1 == ev.version
    ensures Offers(defs, c, ev.reward)
  {
  }

  /** A delivery makes the reward it delivers the plan of its claim, and no other's. */
  lemma RewardPlans(pub: Publisher, db: Db, c: ClaimId, spec: Spec, now: int, announce: bool, d: ClaimId)
    ensures var after := ApplyReward(pub, db, c, spec, now, announce).0;
            d in after.plans ==>
              (d in db.plans && after.plans[d] == db.plans[d])
              || (d == c && !IsEmpty(spec) && after.plans[d].spec == spec)
  {
    hide DeliverSteps, Remaining, CursorMatchesSpec;
  }

  lemma {:induction false} OpsPlans(pub: Publisher, db: Db, ops: seq<Op>, c: ClaimId)
    requires FromDefs(ops, db.defs)
    ensures PlanHeld(db, DoOps(pub, db, ops), c)
    decreases ops
  {
    hide DoOp, Offers;
    if ops != [] {
      assert ops[0] in ops && forall op | op in ops[1..] :: op in ops;
      OpKeepsDefs(pub, db, ops[0]);
      OpPlans(pub, db, ops[0], c);
      OpsPlans(pub, DoOp(pub, db, ops[0]), ops[1..], c);
    }
  }

  lemma StepPlans(pub: Publisher, db: Db, e: Event, c: ClaimId)
    ensures PlanHeld(db, Step(pub, db, e), c)
  {
    hide Offers;
    if e.Tick? {
      hide TickBody, DoOps;
      var ops := TickOps(pub, db, e.inputs);
      OpsPlans(pub, db, ops, c);
    }
  }

  /** Some definition of the event had the reward at some point of the run. */
  ghost predicate WasOffered(pub: Publisher, es: seq<Event>, c: ClaimId, spec: Spec) {
    exists i | 0 <= i <= |es| :: Offers(Run(pub, es[..i]).defs, c, spec)
  }

  /** Over every run, a claim is delivered only under rewards its own event has had. */
  lemma {:induction false} PlansWereOffered(pub: Publisher, es: seq<Event>, c: ClaimId)
    requires c in Run(pub, es).plans
    ensures WasOffered(pub, es, c, Run(pub, es).plans[c].spec)
    decreases |es|
  {
    hide Step, Offers;
    assert es != [];
    var before := es[..|es| - 1];
    var spec := Run(pub, es).plans[c].spec;
    StepPlans(pub, Run(pub, before), es[|es| - 1], c);
    if Offers(Run(pub, before).defs, c, spec) {
      assert es[..|es| - 1] == before;
    } else {
      PlansWereOffered(pub, before, c);
      var i :| 0 <= i <= |before| && Offers(Run(pub, before[..i]).defs, c, spec);
      assert before[..i] == es[..i];
    }
  }

  /** The payments of a claim are none, or a prefix, in order, of the steps of one reward
      that its event had; the whole of them once a delivery under it has finished; and
      while the claim is not granted its cursor is the step of that reward they stopped at. */
  ghost predicate FollowsOnePlan(pub: Publisher, es: seq<Event>, c: ClaimId) {
    var db := Run(pub, es);
    && Mark(db, c.0) <= |db.log|
    && var paid := PaidSteps(Since(db, c), c);
       && (c !in db.plans ==> paid == [])
       && (c in db.plans ==>
             var plan := db.plans[c];
             && WasOffered(pub, es, c, plan.spec) && PlanPrefix(paid, plan.spec)
             && (plan.done ==> paid == Steps(plan.spec)))
       && (c in db.claims && db.claims[c].status != Granted ==>
             && c in db.plans && |paid| < |Steps(db.plans[c].spec)|
             && db.claims[c].cursor == CursorOf(Steps(db.plans[c].spec)[|paid|], db.plans[c].spec))
  }

  /** Whatever fails and whatever is edited, as long as no tick rolls back a payment, the
      payments of a claim since its event was last reset follow one plan. */
  lemma PaymentsFollowOnePlan(pub: Publisher, es: seq<Event>, c: ClaimId)
    requires NeverRaisesAfterPaying(pub, es)
    ensures FollowsOnePlan(pub, es, c)
  {
    hide Run, PaidSteps, Steps, WasOffered;
    RunKeepsIff(pub, es);
    assert es[..|es|] == es;
    assert Agrees(Run(pub, es), c);
    if c in Run(pub, es).plans { PlansWereOffered(pub, es, c); }
  }

  /** As long as no tick rolls back a failure or an announcement: at most three attempts
      at a claim fail, fewer than three when it ends up granted, and its success is
      announced at most once. */
  lemma AtMostThreeDeliveries(pub: Publisher, es: seq<Event>, c: ClaimId)
    requires NeverRaisesAfterFailing(pub, es)
    ensures var db := Run(pub, es);
            && Mark(db, c.0) <= |db.log|
            && Failures(Since(db, c), c) + Misses(db, c) <= MAX_ATTEMPTS
            && (c in db.claims && db.claims[c].status == Granted ==>
                Failures(Since(db, c), c) + Misses(db, c) < MAX_ATTEMPTS)
            && Announcements(Since(db, c), c) <= 1
            && (Announcements(Since(db, c), c) == 1 ==> c in db.claims && db.claims[c].status == Granted)
  {
    RunKeepsIff(pub, es);
    assert es[..|es|] == es;
    assert Counts(Run(pub, es), c);
  }

  // ------------------------------------------------------ reads that all answer

  /** Every read of an event answers, and names online players only. */
  predicate Answers(r: Reading, online: seq<Account>) {
    && r.positions.Some? && (forall a | a in r.positions.value :: a in online)
    && r.levels.Some?
    && r.holders.Some? && (forall a | a in r.holders.value :: a in online)
  }

  /** Nothing a tick may read of the game fails. */
  ghost predicate AllAnswer(t: Inputs) {
    && t.players.Some?
    && (forall id :: Answers(t.readings(id), t.players.value))
    && (forall id :: Answers(t.bootReadings(id), t.players.value))
    && (forall c :: !t.targets(c).QueryFails?)
  }

  lemma {:induction false} AccountsAreThePlayers(players: seq<Account>)
    ensures forall a :: a in Accounts(players) <==> a in players
    decreases |players|
  {
    if players != [] {
      AccountsAreThePlayers(players[..|players| - 1]);
    }
  }

  lemma {:induction false} LevelQualifiersAreOnline(online: seq<Account>, levels: map<Account, int>, threshold: int)
    ensures forall a | a in LevelQualifiers(online, levels, threshold) :: a in online
    decreases online
  {
    if online != [] {
      LevelQualifiersAreOnline(online[1..], levels, threshold);
    }
  }

  lemma QualifiersAnswer(config: Config, online: seq<Account>, r: Reading)
    requires !config.ZoneRace? && Answers(r, online)
    ensures var q := Qualifiers(config, online, r); q.Some? && forall a | a in q.value :: a in online
  {
    if config.LevelMilestone? { LevelQualifiersAreOnline(online, r.levels.value, config.threshold); }
  }

  lemma {:induction false} WinnerIsPlaced(db: Db, ev: EventDef, participants: seq<Account>,
                                          positions: map<Account, Position>)
    requires ev.config.ZoneRace?
    ensures Winner(db, ev, participants, positions).Some? ==> Winner(db, ev, participants, positions).value in positions
    decreases participants
  {
    if participants != [] { WinnerIsPlaced(db, ev, participants[1..], positions); }
  }

  lemma {:induction false} QualifiersCommit(pub: Publisher, db: Db, ev: EventDef, quals: seq<Account>,
                                            online: seq<Account>, now: int)
    requires forall a | a in quals :: a in online
    ensures EvalQualifiers(pub, db, ev, quals, online, now).1
    decreases quals
  {
    if quals != [] {
      assert quals[0] in quals && forall a | a in quals[1..] :: a in quals;
      if Settled(db, (ev.id, ev.version, quals[0])) {
        QualifiersCommit(pub, db, ev, quals[1..], online, now);
      } else {
        QualifiersCommit(pub, ApplyOutcome(pub, db, ev, quals[0], now, true, true).0, ev, quals[1..], online, now);
      }
    }
  }

  lemma EventCommits(pub: Publisher, db: Db, ev: EventDef, online: seq<Account>, r: Reading, now: int)
    requires Answers(r, online)
    ensures EvaluateEvent(pub, db, ev, online, r, now).1
  {
    if ev.config.ZoneRace? {
      WinnerIsPlaced(db, ev, ev.config.participants, r.positions.value);
    } else {
      QualifiersAnswer(ev.config, online, r);
      QualifiersCommit(pub, db, ev, Qualifiers(ev.config, online, r).value, online, now);
    }
  }

  lemma {:induction false} DueCommit(pub: Publisher, db: Db, due: seq<EventDef>, online: seq<Account>,
                                     readings: EventId -> Reading, now: int)
    requires forall id :: Answers(readings(id), online)
    ensures EvaluateDue(pub, db, due, online, readings, now).1
    decreases due
  {
    if due != [] {
      var ev := due[0];
      EventCommits(pub, db, ev, online, readings(ev.id), now);
      var after := EvaluateEvent(pub, db, ev, online, readings(ev.id), now).0;
      var poll := if ev.pollSeconds > 0 then ev.pollSeconds else DEFAULT_POLL_SECS;
      DueCommit(pub, after.(nextDue := after.nextDue[ev.id := now + poll + readings(ev.id).jitter]), due[1..], online,
                readings, now);
    }
  }

  lemma {:induction false} BackfillQualifiersCommit(pub: Publisher, db: Db, ev: EventDef, quals: seq<Account>,
                                                    online: seq<Account>,
                                                    awardPast: bool, now: int)
    requires forall a | a in quals :: a in online
    ensures BackfillQualifiers(pub, db, ev, quals, online, awardPast, now).1
    decreases quals
  {
    if quals != [] {
      assert quals[0] in quals && forall a | a in quals[1..] :: a in quals;
      if (ev.id, ev.version, quals[0]) in db.claims {
        BackfillQualifiersCommit(pub, db, ev, quals[1..], online, awardPast, now);
      } else {
        var after := ApplyOutcome(pub, db, ev, quals[0], now, false, awardPast).0;
        BackfillQualifiersCommit(pub, after, ev, quals[1..], online, awardPast, now);
      }
    }
  }

  lemma {:induction false} BackfillCommits(pub: Publisher, db: Db, events: seq<EventDef>, online: seq<Account>,
                                           readings: EventId -> Reading, now: int)
    requires forall id :: Answers(readings(id), online)
    ensures Backfill(pub, db, events, online, readings, now).1
    decreases events
  {
    if events != [] {
      var ev := events[0];
      if ev.config.ZoneRace? || !ev.enabled {
        BackfillCommits(pub, db, events[1..], online, readings, now);
      } else {
        QualifiersAnswer(ev.config, online, readings(ev.id));
        var quals := Qualifiers(ev.config, online, readings(ev.id)).value;
        BackfillQualifiersCommit(pub, db, ev, quals, online, ev.config.awardPast, now);
        var after := BackfillQualifiers(pub, db, ev, quals, online, ev.config.awardPast, now).0;
        BackfillCommits(pub, after, events[1..], online, readings, now);
      }
    }
  }

  lemma {:induction false} RetriesCommit(pub: Publisher, db: Db, order: seq<ClaimId>, rows: set<ClaimId>,
                                         targets: ClaimId -> Target, now: int)
    requires forall c :: !targets(c).QueryFails?
    ensures RetryPass(pub, db, order, rows, targets, now).1
    decreases order
  {
    if order != [] {
      var c := order[0];
      var ev := FindDef(db.defs, c.0, c.1);
      if c !in rows || ev.None? {
        RetriesCommit(pub, db, order[1..], rows - {c}, targets, now);
      } else if targets(c).Nobody? {
        RetriesCommit(pub, RecordMiss(db, c, now), order[1..], rows - {c}, targets, now);
      } else {
        RetriesCommit(pub, ApplyOutcome(pub, db, ev.value, c.2, now, false, true).0, order[1..], rows - {c}, targets,
                      now);
      }
    }
  }

  /** A tick whose reads all answer commits, whatever the tables hold. */
  lemma AnsweredTickCommits(pub: Publisher, db: Db, t: Inputs)
    requires AllAnswer(t)
    ensures TickBody(pub, db, t).1
  {
    var due := DueEvents(db, db.defs, t.now);
    var needed := due != [] || t.boot;
    var online := if needed then Accounts(t.players.value) else [];
    AccountsAreThePlayers(t.players.value);
    hide Answers, Accounts;
    if needed { AnswersOnline(t); }
    var filled := db;
    if t.boot {
      BackfillCommits(pub, db, db.defs, online, t.bootReadings, t.now);
      filled := Backfill(pub, db, db.defs, online, t.bootReadings, t.now).0;
    }
    if due != [] { DueCommit(pub, filled, due, online, t.readings, t.now); }
    var evaluated := EvaluateDue(pub, filled, due, online, t.readings, t.now).0;
    RetriesCommit(pub, evaluated, t.retryOrder, RetryRows(evaluated, t.now), t.targets, t.now);
  }

  lemma AnswersOnline(t: Inputs)
    requires AllAnswer(t)
    ensures var online := Accounts(t.players.value);
            forall id :: Answers(t.readings(id), online) && Answers(t.bootReadings(id), online)
  {
    AccountsAreThePlayers(t.players.value);
    forall id
      ensures Answers(t.readings(id), Accounts(t.players.value))
              && Answers(t.bootReadings(id), Accounts(t.players.value))
    {
      assert Answers(t.readings(id), t.players.value) && Answers(t.bootReadings(id), t.players.value);
    }
  }

  // --------------------------------------------------- exactly the reads consulted

  predicate FreshIds(defs: seq<EventDef>, nextId: EventId) {
    DistinctIds(defs) && forall d | d in defs :: d.id < nextId
  }

  lemma {:induction false} WithoutKeepsIds(defs: seq<EventDef>, id: EventId, nextId: EventId)
    requires FreshIds(defs, nextId)
    ensures FreshIds(WithoutEvent(defs, id), nextId) && forall d | d in WithoutEvent(defs, id) :: d in defs
    decreases defs
  {
    if defs != [] {
      WithoutKeepsIds(defs[1..], id, nextId);
      var rest := WithoutEvent(defs[1..], id);
      forall d | d in rest ensures d.id != defs[0].id {
        var k :| 0 <= k < |defs[1..]| && defs[1..][k] == d;
        assert defs[k + 1] == d;
      }
    }
  }

  lemma StepKeepsIds(pub: Publisher, db: Db, e: Event)
    requires FreshIds(db.defs, db.nextId)
    ensures var after := Step(pub, db, e); FreshIds(after.defs, after.nextId)
  {
    match e
    case Tick(inputs) =>
      hide TickBody, FreshIds;
      var ops := TickOps(pub, db, inputs);
      OpsKeepDefs(pub, db, ops);
      OpsKeepNextId(pub, db, ops);
    case Delete(id) => WithoutKeepsIds(db.defs, id, db.nextId);
    case _ =>
  }

  lemma {:induction false} OpsKeepNextId(pub: Publisher, db: Db, ops: seq<Op>)
    ensures DoOps(pub, db, ops).nextId == db.nextId
    decreases ops
  {
    hide ApplyReward;
    if ops != [] {
      var op := ops[0];
      if op.Apply? {
        RewardKeepsNextId(pub, db, (op.ev.id, op.ev.version, op.account), if op.grant then op.ev.reward else NO_REWARD,
                          op.now, op.announce && op.ev.announces);
      }
      OpsKeepNextId(pub, DoOp(pub, db, op), ops[1..]);
    }
  }

  lemma RewardKeepsNextId(pub: Publisher, db: Db, c: ClaimId, spec: Spec, now: int, announce: bool)
    ensures ApplyReward(pub, db, c, spec, now, announce).0.nextId == db.nextId
  {
    hide DeliverSteps, Remaining, CursorMatchesSpec;
  }

  lemma {:induction false} RunKeepsIds(pub: Publisher, es: seq<Event>)
    ensures FreshIds(Run(pub, es).defs, Run(pub, es).nextId)
    decreases |es|
  {
    hide Step;
    if es != [] {
      RunKeepsIds(pub, es[..|es| - 1]);
      StepKeepsIds(pub, Run(pub, es[..|es| - 1]), es[|es| - 1]);
    }
  }

  /** At any point of a run a tick commits exactly when every read it consults answers. */
  lemma TickCommitsOnRunIff(pub: Publisher, es: seq<Event>, t: Inputs)
    ensures TickBody(pub, Run(pub, es), t).1 <==> TickAnswers(Run(pub, es), t)
  {
    RunKeepsIds(pub, es);
    hide TickBody, TickAnswers, Run;
    TickCommitsIff(pub, Run(pub, es), t);
  }

  ghost predicate ReadsAnswer(pub: Publisher, es: seq<Event>) {
    forall i | 0 <= i < |es| && es[i].Tick? && es[i].inputs.on :: TickAnswers(Run(pub, es[..i]), es[i].inputs)
  }

  /** With every consulted read answered, every run keeps every promise: one plan, in order,
      no step twice; at most three failed attempts; one announcement. */
  lemma AnsweredRunsKeepAll(pub: Publisher, es: seq<Event>, c: ClaimId)
    requires ReadsAnswer(pub, es)
    ensures AlwaysAgrees(pub, es) && AlwaysCounts(pub, es) && FollowsOnePlan(pub, es, c)
    ensures var db := Run(pub, es);
            && Mark(db, c.0) <= |db.log|
            && Failures(Since(db, c), c) + Misses(db, c) <= MAX_ATTEMPTS && Announcements(Since(db, c), c) <= 1
  {
    hide TickAnswers, TickBody, Run, FollowsOnePlan, AlwaysAgrees, AlwaysCounts;
    forall i | 0 <= i < |es|
      ensures !RaisesAfterPaying(pub, Run(pub, es[..i]), es[i]) && !RaisesAfterFailing(pub, Run(pub, es[..i]), es[i])
    {
      if es[i].Tick? { TickCommitsOnRunIff(pub, es[..i], es[i].inputs); }
    }
    RunKeepsIff(pub, es);
    PaymentsFollowOnePlan(pub, es, c);
    AtMostThreeDeliveries(pub, es, c);
  }

  /** Reads that all answer, whether a tick consults them or not. */
  lemma AllAnswering(pub: Publisher, es: seq<Event>)
    requires forall e | e in es && e.Tick? :: AllAnswer(e.inputs)
    ensures ReadsAnswer(pub, es)
  {
    hide TickAnswers, TickBody, Run, AllAnswer;
    forall i | 0 <= i < |es| && es[i].Tick? ensures TickAnswers(Run(pub, es[..i]), es[i].inputs) {
      assert es[i] in es;
      AnsweredTickCommits(pub, Run(pub, es[..i]), es[i].inputs);
      TickCommitsOnRunIff(pub, es[..i], es[i].inputs);
    }
  }

  /** Granted and exhausted are absorbing until a reset or a delete, even through
      ticks that roll back. */
  lemma SettledStays(pub: Publisher, db: Db, e: Event, c: ClaimId)
    requires Settled(db, c) && !Forgets(e, c) && Mark(db, c.0) <= |db.log|
    ensures var after := Step(pub, db, e);
            && c in after.claims && after.claims[c] == db.claims[c]
            && Mark(after, c.0) == Mark(db, c.0) && |db.log| <= |after.log|
            && PaidSteps(Since(after, c), c) == PaidSteps(Since(db, c), c)
            && Failures(Since(after, c), c) == Failures(Since(db, c), c)
            && Announcements(Since(after, c), c) == Announcements(Since(db, c), c)
  {
    hide PaidSteps, Failures, Announcements, TickBody, DoOps, AllLegal;
    match e
    case Tick(inputs) =>
      var ops := TickOps(pub, db, inputs);
      SettledIsSilent(pub, db, ops, c, Mark(db, c.0));
    case _ =>
  }

  // -------------------------------------------------------- what gets paid

  lemma {:induction false} ObligingDelivery(pub: Publisher, log: seq<Call>, c: ClaimId, todo: seq<RewardStep>)
    requires forall n: nat :: pub(n) == 0
    ensures DeliverSteps(pub, log, c, todo).1.None?
    decreases todo
  {
    if todo != [] {
      ObligingDelivery(pub, log + [Grant(c, todo[0], pub(|log|))], c, todo[1..]);
    }
  }

  /** With a publisher that answers 0, an open claim under an unchanged reward is
      granted with every step of the plan paid. */
  lemma OpenClaimIsPaidInFull(pub: Publisher, db: Db, ev: EventDef, account: Account, now: int, announce: bool)
    requires AllAgree(db) && (forall n: nat :: pub(n) == 0) && !IsEmpty(ev.reward)
    requires var c := (ev.id, ev.version, account);
             !Settled(db, c) && (c in db.claims ==> CursorMatchesSpec(db.claims[c].cursor, ev.reward))
    ensures var c := (ev.id, ev.version, account);
            var (after, outcome) := ApplyOutcome(pub, db, ev, account, now, announce, true);
            && outcome == Delivered && c in after.claims && after.claims[c].status == Granted
            && Mark(after, c.0) <= |after.log|
            && PaidSteps(Since(after, c), c) == Steps(ev.reward)
  {
    var c := (ev.id, ev.version, account);
    ObligingDelivery(pub, db.log, c, Remaining(ev.reward, StoredCursor(db, c)));
    assert Agrees(db, c);
    OwnReward(pub, db, c, ev.reward, now, announce && ev.announces);
  }

  /** The race is won by the first listed participant who is inside the zone and not yet settled. */
  lemma {:induction false} WinnerIsFirst(db: Db, ev: EventDef, participants: seq<Account>,
                                         positions: map<Account, Position>)
    requires ev.config.ZoneRace?
    ensures var w := Winner(db, ev, participants, positions);
            match w
            case None => forall i | 0 <= i < |participants| :: !Eligible(db, ev, positions, participants[i])
            case Some(a) => exists i | 0 <= i < |participants| ::
                              && participants[i] == a && Eligible(db, ev, positions, a)
                              && forall j | 0 <= j < i :: !Eligible(db, ev, positions, participants[j])
    decreases participants
  {
    if participants != [] {
      var rest := participants[1..];
      WinnerIsFirst(db, ev, rest, positions);
      var w := Winner(db, ev, participants, positions);
      if Eligible(db, ev, positions, participants[0]) {
        assert participants[0] == participants[0];
      } else if w.Some? {
        var i :| 0 <= i < |rest| && rest[i] == w.value && Eligible(db, ev, positions, w.value)
               && forall j | 0 <= j < i :: !Eligible(db, ev, positions, rest[j]);
        assert participants[i + 1] == w.value;
        assert forall j | 0 <= j < i + 1 :: !Eligible(db, ev, positions, participants[j]) by {
          forall j | 0 <= j < i + 1 ensures !Eligible(db, ev, positions, participants[j]) {
            if j > 0 { assert participants[j] == rest[j - 1]; }
          }
        }
      }
    }
  }

  predicate Eligible(db: Db, ev: EventDef, positions: map<Account, Position>, a: Account)
    requires ev.config.ZoneRace?
  {
    a in positions && InZone(ev.config, positions[a]) && !Settled(db, (ev.id, ev.version, a))
  }

  // ----------------------------------------------------- the failing example

  const PAYING := EventDef(1, 1, true, TagMilestone(false), Spec(100, [], []), false, 7)
  const READING := EventDef(2, 1, true, LevelMilestone(10, false), Spec(5, [], []), false, 7)

  function TickWith(levels: Option<map<Account, int>>): Inputs {
    Inputs(true, 1000, false, Some([7]), (id: EventId) => Reading(None, levels, Some([7]), 0),
           (id: EventId) => Reading(None, None, None, 0), (c: ClaimId) => Nobody, [])
  }

  /** The payment that a rollback forgets is made again: one event pays account 7,
      the level read of the next event fails, and the following tick pays 7 a
      second time. */
  lemma RollbackPaysTwice()
    ensures var pub: Publisher := n => 0;
            var db0 := EMPTY.(defs := [PAYING, READING], nextId := 3);
            var db1 := RunTick(pub, db0, TickWith(None));
            var db2 := RunTick(pub, db1, TickWith(Some(map[])));
            && AllAgree(db0) && RaisesAfterPaying(pub, db0, Tick(TickWith(None)))
            && PaidSteps(db2.log, (1, 1, 7)) == [FIRST_STEP, FIRST_STEP]
  {
    hide TickBody;
    var pub: Publisher := n => 0;
    var db0 := EMPTY.(defs := [PAYING, READING], nextId := 3);
    forall c: ClaimId ensures Agrees(db0, c) {}
    var call := Grant((1, 1, 7), FIRST_STEP, 0);
    PayingTick(pub, db0, None);
    var db1 := RunTick(pub, db0, TickWith(None));
    assert db1 == db0.(log := [call]);
    assert TickBody(pub, db0, TickWith(None)).0.log[0] == call;
    PayingTick(pub, db1, Some(map[]));
    var db2 := RunTick(pub, db1, TickWith(Some(map[])));
    assert db2.log == [call, call];
    assert db2.log[..1] == [call] && [call][..0] == [];
    assert PaidSteps([call], (1, 1, 7)) == [FIRST_STEP];
  }

  const FIRST_STEP := RewardStep(Currency, 0, Amount(100))

  lemma ExampleReward(pub: Publisher, db: Db, now: int)
    requires (forall n: nat :: pub(n) == 0) && db.claims == map[]
    ensures var after := ApplyReward(pub, db, (1, 1, 7), PAYING.reward, now, false).0;
            after.log == db.log + [Grant((1, 1, 7), FIRST_STEP, 0)] && after.nextDue == db.nextDue
  {
    var c: ClaimId := (1, 1, 7);
    assert Steps(PAYING.reward) == [FIRST_STEP];
    var called := db.log + [Grant(c, FIRST_STEP, 0)];
    assert [FIRST_STEP][1..] == [];
    assert DeliverSteps(pub, called, c, []) == (called, None);
    assert DeliverSteps(pub, db.log, c, [FIRST_STEP]) == (called, None);
  }

  lemma ExamplePays(pub: Publisher, db: Db, now: int)
    requires (forall n: nat :: pub(n) == 0) && db.claims == map[]
    ensures var (after, ok) := EvalQualifiers(pub, db, PAYING, [7], [7], now);
            ok && after.log == db.log + [Grant((1, 1, 7), FIRST_STEP, 0)] && after.nextDue == db.nextDue
  {
    ExampleReward(pub, db, now);
    var after := ApplyOutcome(pub, db, PAYING, 7, now, true, true).0;
    assert [7][1..] == [];
    assert EvalQualifiers(pub, after, PAYING, [], [7], now) == (after, true);
  }

  lemma ExampleReads(pub: Publisher, db: Db, levels: Option<map<Account, int>>, now: int)
    requires levels.None? || levels == Some(map[])
    ensures var r := Reading(None, levels, Some([7]), 0);
            EvaluateEvent(pub, db, READING, [7], r, now) == (db, levels.Some?)
  {
    var none: map<Account, int> := map[];
    assert [7][1..] == [];
    assert LevelQualifiers([], none, 10) == [];
    assert LevelQualifiers([7], none, 10) == [];
  }

  lemma ExampleDue(db: Db)
    requires db.defs == [PAYING, READING] && db.nextDue == map[]
    ensures DueEvents(db, db.defs, 1000) == [PAYING, READING]
  {
    assert db.defs[1..] == [READING];
    assert [READING][1..] == [];
    assert DueEvents(db, [], 1000) == [];
    assert DueEvents(db, [READING], 1000) == [READING];
  }

  lemma ExampleEvaluates(pub: Publisher, db: Db, levels: Option<map<Account, int>>)
    requires (forall n: nat :: pub(n) == 0) && db.claims == map[] && db.nextDue == map[]
    requires levels.None? || levels == Some(map[])
    ensures var (after, ok) := EvaluateDue(pub, db, [PAYING, READING], [7], TickWith(levels).readings, 1000);
            after.log == db.log + [Grant((1, 1, 7), FIRST_STEP, 0)] && ok == levels.Some?
  {
    hide EvaluateDue, EvaluateEvent, EvalQualifiers;
    var readings := TickWith(levels).readings;
    ExamplePays(pub, db, 1000);
    FirstEvaluates(pub, db, readings(1));
    var paid := EvalQualifiers(pub, db, PAYING, [7], [7], 1000).0;
    var stamped := Stamped(paid, PAYING, readings(1), 1000);
    ExampleReads(pub, stamped, levels, 1000);
    assert [PAYING, READING] == [PAYING] + [READING] && [READING] == [READING] + [];
    DueUnfolds(pub, db, PAYING, [READING], [7], readings, 1000);
    DueUnfolds(pub, stamped, READING, [], [7], readings, 1000);
    DueUnfolds(pub, Stamped(stamped, READING, readings(2), 1000), READING, [], [7], readings, 1000);
  }

  lemma FirstEvaluates(pub: Publisher, db: Db, r: Reading)
    requires r.holders == Some([7])
    ensures EvaluateEvent(pub, db, PAYING, [7], r, 1000) == EvalQualifiers(pub, db, PAYING, [7], [7], 1000)
  {
    hide EvalQualifiers;
  }

  lemma PayingTick(pub: Publisher, db: Db, levels: Option<map<Account, int>>)
    requires forall n: nat :: pub(n) == 0
    requires db.defs == [PAYING, READING] && db.claims == map[] && db.nextDue == map[]
    requires levels.None? || levels == Some(map[])
    ensures var (after, ok) := TickBody(pub, db, TickWith(levels));
            after.log == db.log + [Grant((1, 1, 7), FIRST_STEP, 0)] && ok == levels.Some?
  {
    ExampleDue(db);
    ExampleEvaluates(pub, db, levels);
    assert [7][..0] == [] && Accounts([]) == [];
    assert Accounts([7]) == [7];
  }

  // ------------------------------------------------- attempts without bound

  const SETUP := [Create(PAYING), Create(READING), Switch(1, true), Switch(2, true)]

  function Refuse(n: nat): int { 1 }
  const REFUSED: Call := Grant((1, 1, 7), FIRST_STEP, 1)

  /** The publisher refuses account 7, and the level read of the next event raises. */
  lemma RefusedEvaluates(db: Db)
    requires db.claims == map[] && db.nextDue == map[]
    ensures var (after, ok) := EvaluateDue(Refuse, db, [PAYING, READING], [7], TickWith(None).readings, 1000);
            after.log == db.log + [REFUSED] && !ok
  {
    var c: ClaimId := (1, 1, 7);
    assert Steps(PAYING.reward) == [FIRST_STEP];
    assert DeliverSteps(Refuse, db.log, c, [FIRST_STEP]) == (db.log + [REFUSED], Some(FIRST_STEP));
    var after := ApplyOutcome(Refuse, db, PAYING, 7, 1000, true, true).0;
    assert after.log == db.log + [REFUSED] && after.nextDue == db.nextDue;
    assert [7][1..] == [];
    assert EvalQualifiers(Refuse, after, PAYING, [], [7], 1000) == (after, true);
    var readings := TickWith(None).readings;
    FirstEvaluates(Refuse, db, readings(1));
    assert [PAYING, READING] == [PAYING] + [READING] && [READING] == [READING] + [];
    DueUnfolds(Refuse, db, PAYING, [READING], [7], readings, 1000);
    DueUnfolds(Refuse, Stamped(after, PAYING, readings(1), 1000), READING, [], [7], readings, 1000);
  }

  lemma RefusedTick(db: Db)
    requires db.defs == [PAYING, READING] && db.claims == map[] && db.nextDue == map[]
    ensures RunTick(Refuse, db, TickWith(None)) == db.(log := db.log + [REFUSED])
  {
    ExampleDue(db);
    RefusedEvaluates(db);
    assert [7][..0] == [] && Accounts([]) == [];
    assert Accounts([7]) == [7];
  }

  lemma SetupRuns()
    ensures Run(Refuse, SETUP) == EMPTY.(defs := [PAYING, READING], nextId := 3)
  {
    hide RunTick, UpdateEvent, DeleteEvent, Forget;
    var es := SETUP;
    assert es[..3][..2] == es[..2] && es[..2][..1] == es[..1] && es[..1][..0] == [] && es[..4] == es;
    var off1, off2 := PAYING.(enabled := false), READING.(enabled := false);
    assert Run(Refuse, es[..1]) == EMPTY.(defs := [off1], nextId := 2);
    assert Run(Refuse, es[..2]) == EMPTY.(defs := [off1, off2], nextId := 3);
    assert Run(Refuse, es[..3]) == EMPTY.(defs := [PAYING, off2], nextId := 3);
    assert Run(Refuse, es[..4]) == EMPTY.(defs := [PAYING, READING], nextId := 3);
  }

  lemma RunOn(pub: Publisher, es: seq<Event>, e: Event)
    ensures Run(pub, es + [e]) == Step(pub, Run(pub, es), e)
  {
    assert (es + [e])[..|es|] == es;
  }

  function Again(n: nat): seq<Event> { if n == 0 then SETUP else Again(n - 1) + [Tick(TickWith(None))] }

  lemma NothingFailed()
    ensures Failures([], (1, 1, 7)) == 0
  {
  }

  /** A failed attempt that is rolled back is not counted, and made again at the next
      tick: with a publisher that refuses and a later read that raises, every one of n
      ticks fails a delivery of the same claim, whose row is never written. */
  lemma {:induction false} RollbackFailsForever(n: nat)
    ensures var db := Run(Refuse, Again(n));
            && db == EMPTY.(defs := [PAYING, READING], nextId := 3, log := db.log)
            && Failures(Since(db, (1, 1, 7)), (1, 1, 7)) == n
    decreases n
  {
    hide RunTick, Run, TickWith, Failures;
    if n == 0 {
      SetupRuns();
      NothingFailed();
    } else {
      RollbackFailsForever(n - 1);
      var db := Run(Refuse, Again(n - 1));
      RunOn(Refuse, Again(n - 1), Tick(TickWith(None)));
      RefusedTick(db);
      assert db.log[0..] == db.log && (db.log + [REFUSED])[0..] == db.log + [REFUSED];
      LogAppend(db.log, REFUSED, (1, 1, 7));
    }
  }
}
