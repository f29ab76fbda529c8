/** What every run of the events engine keeps for one claim row, between two
    resets: its payments follow one reward plan in order, at most three failed
    deliveries, and a settled row is final. The one way this breaks is a tick that
    rolls back after it has paid; both sides of that are proved here. */
module EventsSafety {
  import opened Wrappers
  import opened Rewards
  import opened Events
  import opened EventsOps

  // --------------------------------------------------------- reading the log

  function PaidSteps(log: seq<Call>, c: ClaimId): seq<RewardStep> {
    if log == [] then []
    else
      var last := log[|log| - 1];
      PaidSteps(log[..|log| - 1], c) + if last.Grant? && last.claim == c && last.rc == 0 then [last.step] else []
  }

  function Failures(log: seq<Call>, c: ClaimId): nat {
    if log == [] then 0
    else
      var last := log[|log| - 1];
      Failures(log[..|log| - 1], c) + if last.Grant? && last.claim == c && last.rc != 0 then 1 else 0
  }

  function Announcements(log: seq<Call>, c: ClaimId): nat {
    if log == [] then 0
    else Announcements(log[..|log| - 1], c) + if log[|log| - 1] == Announce(c) then 1 else 0
  }

  lemma LogAppend(log: seq<Call>, call: Call, c: ClaimId)
    ensures PaidSteps(log + [call], c) == PaidSteps(log, c) + if call.Grant? && call.claim == c
            && call.rc == 0 then [call.step] else []
    ensures Failures(log + [call], c) == Failures(log, c) + if call.Grant? && call.claim == c && call.rc != 0 then 1
            else 0
    ensures Announcements(log + [call], c) == Announcements(log, c) + if call == Announce(c) then 1 else 0
  {
    assert (log + [call])[..|log|] == log;
  }

  function Mark(db: Db, id: EventId): nat { if id in db.marks then db.marks[id] else 0 }

  /** The calls since the event of the claim was last reset. */
  function Since(db: Db, c: ClaimId): seq<Call>
    requires Mark(db, c.0) <= |db.log|
  {
    db.log[Mark(db, c.0)..]
  }

  // ---------------------------------------------------------------- invariant

  predicate PlanPrefix(paid: seq<RewardStep>, spec: Spec) {
    |paid| <= |Steps(spec)| && paid == Steps(spec)[..|paid|]
  }

  /** The stored cursor is the step the payments stopped at, under the spec they were made for. */
  predicate CursorAtStop(row: ClaimRow, paid: seq<RewardStep>) {
    && row.cursor.Json? && row.cursor.hash.Some?
    && PlanPrefix(paid, row.cursor.hash.value)
    && |paid| < |Steps(row.cursor.hash.value)|
    && row.cursor == CursorOf(Steps(row.cursor.hash.value)[|paid|], row.cursor.hash.value)
  }

  /** The row tells the truth about what was paid: a prefix of the one plan it was last
      delivered under, the whole of it when that delivery finished; and until it is
      granted its cursor stands at the step that plan stopped at. */
  ghost predicate Agrees(db: Db, c: ClaimId) {
    && Mark(db, c.0) <= |db.log|
    && var paid := PaidSteps(Since(db, c), c);
       && (c !in db.plans ==> paid == [])
       && (c in db.plans ==>
             && c in db.claims && PlanPrefix(paid, db.plans[c].spec)
             && (db.plans[c].done ==> db.claims[c].status == Granted && paid == Steps(db.plans[c].spec)))
       && (c in db.claims && db.claims[c].status != Granted ==>
             && c in db.plans && CursorAtStop(db.claims[c], paid) && db.claims[c].cursor.hash == Some(db.plans[c].spec))
  }

  /** The row counts every attempt that went wrong and was announced at most once. */
  ghost predicate Counts(db: Db, c: ClaimId) {
    && Mark(db, c.0) <= |db.log|
    && var wrong := Failures(Since(db, c), c) + Misses(db, c);
       var told := Announcements(Since(db, c), c);
       if c !in db.claims then wrong == 0 && told == 0
       else
         match db.claims[c].status
         case Pending => wrong == db.claims[c].attempts && 1 <= wrong < MAX_ATTEMPTS && told == 0
         case Granted => wrong == db.claims[c].attempts && wrong < MAX_ATTEMPTS && told <= 1
         case Exhausted => wrong <= db.claims[c].attempts == MAX_ATTEMPTS && told == 0
  }

  ghost predicate AllAgree(db: Db) { forall c: ClaimId :: Agrees(db, c) }
  ghost predicate AllCount(db: Db) { forall c: ClaimId :: Counts(db, c) }

  // ------------------------------------------------------- what one op keeps

  lemma SinceAppend(log: seq<Call>, call: Call, m: nat)
    requires m <= |log|
    ensures (log + [call])[m..] == log[m..] + [call]
  {}

  /** A delivery pays a prefix of what was owed, stops at the first failure, and
      concerns its own claim only. */
  lemma {:induction false} DeliverLogs(pub: Publisher, log: seq<Call>, c: ClaimId, todo: seq<RewardStep>, m: nat,
                                       d: ClaimId) returns (k: nat)
    requires m <= |log|
    ensures var (after, failed) := DeliverSteps(pub, log, c, todo);
            && |log| <= |after| && after[..|log|] == log
            && k <= |todo|
            && (failed.None? ==> k == |todo|)
            && (failed.Some? ==> k < |todo| && failed.value == todo[k])
            && PaidSteps(after[m..], d) == PaidSteps(log[m..], d) + (if d == c then todo[..k] else [])
            && Failures(after[m..], d) == Failures(log[m..], d) + (if d == c && failed.Some? then 1 else 0)
            && Announcements(after[m..], d) == Announcements(log[m..], d)
    decreases todo
  {
    hide PaidSteps, Failures, Announcements;
    k := 0;
    if todo != [] {
      var rc := pub(|log|);
      var call := Grant(c, todo[0], rc);
      SinceAppend(log, call, m);
      LogAppend(log[m..], call, d);
      if rc == 0 {
        var k' := DeliverLogs(pub, log + [call], c, todo[1..], m, d);
        k := k' + 1;
        assert todo[..k] == [todo[0]] + todo[1..][..k'];
      }
    }
  }

  lemma AnnounceLogs(db: Db, c: ClaimId, announce: bool, m: nat, d: ClaimId)
    requires m <= |db.log|
    ensures var after := Announced(db, c, announce).log[m..];
            && PaidSteps(after, d) == PaidSteps(db.log[m..], d) && Failures(after, d) == Failures(db.log[m..], d)
            && Announcements(after, d) == Announcements(db.log[m..], d) + (if announce && d == c then 1 else 0)
  {
    SinceAppend(db.log, Announce(c), m);
    LogAppend(db.log[m..], Announce(c), d);
  }

  lemma OthersDelivery(pub: Publisher, db: Db, c: ClaimId, spec: Spec, cursor: Cursor, now: int, m: nat, d: ClaimId)
    requires m <= |db.log| && d != c
    ensures var after := DeliverSpec(pub, db, c, spec, cursor, now).0;
            && |db.log| <= |after.log|
            && PaidSteps(after.log[m..], d) == PaidSteps(db.log[m..], d)
            && Failures(after.log[m..], d) == Failures(db.log[m..], d)
            && Announcements(after.log[m..], d) == Announcements(db.log[m..], d)
  {
    var k := DeliverLogs(pub, db.log, c, Remaining(spec, cursor), m, d);
  }

  /** An outcome leaves the rows and the calls of every other claim alone. */
  lemma OthersLogs(pub: Publisher, db: Db, c: ClaimId, spec: Spec, now: int, announce: bool, m: nat, d: ClaimId)
    requires m <= |db.log| && d != c
    ensures var after := ApplyReward(pub, db, c, spec, now, announce).0;
            && |db.log| <= |after.log|
            && PaidSteps(after.log[m..], d) == PaidSteps(db.log[m..], d)
            && Failures(after.log[m..], d) == Failures(db.log[m..], d)
            && Announcements(after.log[m..], d) == Announcements(db.log[m..], d)
  {
    var cursor := StoredCursor(db, c);
    if IsEmpty(spec) {
      AnnounceLogs(SealGranted(db, c), c, announce, m, d);
    } else if cursor == Blank || CursorMatchesSpec(cursor, spec) {
      OthersDelivery(pub, db, c, spec, cursor, now, m, d);
      AnnounceLogs(DeliverSpec(pub, db, c, spec, cursor, now).0, c, announce, m, d);
    }
  }

  predicate SameRow(db: Db, after: Db, d: ClaimId) {
    && after.marks == db.marks
    && (d in after.claims <==> d in db.claims) && (d in db.claims ==> after.claims[d] == db.claims[d])
    && Misses(after, d) == Misses(db, d)
    && (d in after.plans <==> d in db.plans) && (d in db.plans ==> after.plans[d] == db.plans[d])
  }

  lemma AnnouncedRows(db: Db, done: Db, c: ClaimId, announce: bool, d: ClaimId)
    requires SameRow(db, done, d)
    ensures SameRow(db, Announced(done, c, announce), d)
  {}

  lemma OthersRows(pub: Publisher, db: Db, c: ClaimId, spec: Spec, now: int, announce: bool, d: ClaimId)
    requires d != c
    ensures SameRow(db, ApplyReward(pub, db, c, spec, now, announce).0, d)
  {
    var cursor := StoredCursor(db, c);
    if IsEmpty(spec) {
      AnnouncedRows(db, SealGranted(db, c), c, announce, d);
    } else if cursor == Blank || CursorMatchesSpec(cursor, spec) {
      DeliveryRows(pub, db, c, spec, cursor, now, d);
      AnnouncedRows(db, DeliverSpec(pub, db, c, spec, cursor, now).0, c, announce, d);
    }
  }

  lemma DeliveryRows(pub: Publisher, db: Db, c: ClaimId, spec: Spec, cursor: Cursor, now: int, d: ClaimId)
    requires d != c
    ensures SameRow(db, DeliverSpec(pub, db, c, spec, cursor, now).0, d)
  {}

  lemma OthersReward(pub: Publisher, db: Db, c: ClaimId, spec: Spec, now: int, announce: bool, d: ClaimId)
    requires d != c
    ensures var after := ApplyReward(pub, db, c, spec, now, announce).0;
            (Agrees(db, d) ==> Agrees(after, d)) && (Counts(db, d) ==> Counts(after, d))
  {
    if Mark(db, d.0) <= |db.log| {
      OthersLogs(pub, db, c, spec, now, announce, Mark(db, d.0), d);
      OthersRows(pub, db, c, spec, now, announce, d);
    }
  }

  lemma OthersUntouched(pub: Publisher, db: Db, op: Op, d: ClaimId)
    requires !Concerns(op, d)
    ensures var after := DoOp(pub, db, op); (Agrees(db, d) ==> Agrees(after, d)) && (Counts(db, d) ==> Counts(after, d))
  {
    hide ApplyReward, PaidSteps, Failures, Announcements, CursorAtStop, PlanPrefix;
    if op.Apply? {
      OthersReward(pub, db, (op.ev.id, op.ev.version, op.account), if op.grant then op.ev.reward else NO_REWARD, op.now,
                   op.announce && op.ev.announces, d);
    }
  }

  /** What an open claim owes under a spec its cursor accepts. */
  lemma OwedIsRest(db: Db, c: ClaimId, spec: Spec) returns (n: nat)
    requires Agrees(db, c) && !Settled(db, c)
    requires c in db.claims ==> CursorMatchesSpec(db.claims[c].cursor, spec)
    ensures n <= |Steps(spec)| && PaidSteps(Since(db, c), c) == Steps(spec)[..n]
    ensures Remaining(spec, StoredCursor(db, c)) == Steps(spec)[n..]
  {
    n := |PaidSteps(Since(db, c), c)|;
    if c in db.claims { RemainingAtFailure(spec, n); }
  }

  lemma FailureKeeps(db: Db, c: ClaimId, spec: Spec, log: seq<Call>, n: nat, now: int)
    requires Agrees(db, c) && !Settled(db, c)
    requires n < |Steps(spec)| && |db.log| <= |log|
    requires PaidSteps(log[Mark(db, c.0)..], c) == Steps(spec)[..n]
    ensures var called := db.(log := log, plans := db.plans[c := Plan(spec, false)]);
            Agrees(RecordFailed(called, c, CursorOf(Steps(spec)[n], spec), now), c)
  {
    assert PlanPrefix(Steps(spec)[..n], spec);
  }

  lemma SuccessKeeps(db: Db, c: ClaimId, spec: Spec, log: seq<Call>)
    requires Agrees(db, c) && !Settled(db, c)
    requires |db.log| <= |log|
    requires PaidSteps(log[Mark(db, c.0)..], c) == Steps(spec)
    ensures var after := SealGranted(db.(log := log, plans := db.plans[c := Plan(spec, true)]), c);
            Agrees(after, c)
  {
    assert PlanPrefix(Steps(spec), spec);
  }

  /** The delivery itself: what was paid before and what is paid now are one
      prefix of the plan, and the new cursor is where it stops. */
  lemma DeliveryKeeps(pub: Publisher, db: Db, c: ClaimId, spec: Spec, now: int)
    requires Agrees(db, c) && !Settled(db, c)
    requires c in db.claims ==> CursorMatchesSpec(db.claims[c].cursor, spec)
    ensures var (after, ok) := DeliverSpec(pub, db, c, spec, StoredCursor(db, c), now);
            Agrees(after, c)
  {
    var n := OwedIsRest(db, c, spec);
    RestKeeps(pub, db, c, spec, Steps(spec), n, now);
  }

  lemma RestKeeps(pub: Publisher, db: Db, c: ClaimId, spec: Spec, plan: seq<RewardStep>, n: nat, now: int)
    requires Agrees(db, c) && !Settled(db, c)
    requires plan == Steps(spec) && n <= |plan| && PaidSteps(Since(db, c), c) == plan[..n]
    ensures var (log, failed) := DeliverSteps(pub, db.log, c, plan[n..]);
            if failed.Some? then
              var called := db.(log := log, plans := db.plans[c := Plan(spec, false)]);
              Agrees(RecordFailed(called, c, CursorOf(failed.value, spec), now), c)
            else
              var after := SealGranted(db.(log := log, plans := db.plans[c := Plan(spec, true)]), c);
              Agrees(after, c)
  {
    var k := DeliverLogs(pub, db.log, c, plan[n..], Mark(db, c.0), c);
    var (log, failed) := DeliverSteps(pub, db.log, c, plan[n..]);
    assert plan[..n] + plan[n..][..k] == plan[..n + k];
    if failed.Some? {
      FailureKeeps(db, c, spec, log, n + k, now);
    } else {
      assert plan[..n + k] == plan;
      SuccessKeeps(db, c, spec, log);
    }
  }

  lemma AnnounceKeeps(db: Db, c: ClaimId, announce: bool)
    requires Agrees(db, c)
    ensures Agrees(Announced(db, c, announce), c)
  {
    AnnounceLogs(db, c, announce, Mark(db, c.0), c);
  }

  lemma SealWithoutReward(db: Db, c: ClaimId)
    requires Agrees(db, c) && !Settled(db, c)
    ensures var after := SealGranted(db, c); Agrees(after, c)
  {
    assert PlanPrefix([], NO_REWARD);
  }

  lemma OwnReward(pub: Publisher, db: Db, c: ClaimId, spec: Spec, now: int, announce: bool)
    requires Agrees(db, c) && !Settled(db, c)
    ensures var after := ApplyReward(pub, db, c, spec, now, announce).0; Agrees(after, c)
  {
    var cursor := StoredCursor(db, c);
    if IsEmpty(spec) {
      SealWithoutReward(db, c);
      AnnounceKeeps(SealGranted(db, c), c, announce);
    } else if c !in db.claims || CursorMatchesSpec(db.claims[c].cursor, spec) {
      DeliveryKeeps(pub, db, c, spec, now);
      var (after, ok) := DeliverSpec(pub, db, c, spec, cursor, now);
      if ok { AnnounceKeeps(after, c, announce); }
    }
  }

  /** Granted just now, with nothing announced yet. */
  ghost predicate FreshlyGranted(db: Db, c: ClaimId) {
    Counts(db, c) && c in db.claims && db.claims[c].status == Granted && Announcements(Since(db, c), c) == 0
  }

  lemma AnnounceCounts(db: Db, c: ClaimId, announce: bool)
    requires FreshlyGranted(db, c)
    ensures Counts(Announced(db, c, announce), c)
  {
    AnnounceLogs(db, c, announce, Mark(db, c.0), c);
  }

  lemma SealCounts(db: Db, c: ClaimId)
    requires Counts(db, c) && !Settled(db, c)
    ensures FreshlyGranted(SealGranted(db, c), c)
  {
  }

  /** One attempt, one count. */
  lemma DeliveryCounts(pub: Publisher, db: Db, c: ClaimId, spec: Spec, now: int)
    requires Counts(db, c) && !Settled(db, c)
    ensures var (after, ok) := DeliverSpec(pub, db, c, spec, StoredCursor(db, c), now);
            if ok then FreshlyGranted(after, c) else Counts(after, c)
  {
    hide Remaining, PaidSteps, Failures, Announcements, DeliverSteps, CursorMatchesSpec;
    var todo := Remaining(spec, StoredCursor(db, c));
    var (log, failed) := DeliverSteps(pub, db.log, c, todo);
    var k := DeliverLogs(pub, db.log, c, todo, Mark(db, c.0), c);
    if failed.None? {
      SealCounts(db.(log := log, plans := db.plans[c := Plan(spec, true)]), c);
    }
  }

  lemma OwnRewardCounts(pub: Publisher, db: Db, c: ClaimId, spec: Spec, now: int, announce: bool)
    requires Counts(db, c) && !Settled(db, c)
    ensures Counts(ApplyReward(pub, db, c, spec, now, announce).0, c)
  {
    hide DeliverSpec, FreshlyGranted, Announced;
    var cursor := StoredCursor(db, c);
    if IsEmpty(spec) {
      SealCounts(db, c);
      AnnounceCounts(SealGranted(db, c), c, announce);
    } else if cursor == Blank || CursorMatchesSpec(cursor, spec) {
      DeliveryCounts(pub, db, c, spec, now);
      var (after, ok) := DeliverSpec(pub, db, c, spec, cursor, now);
      if ok { AnnounceCounts(after, c, announce); }
    }
  }

  lemma OpKeeps(pub: Publisher, db: Db, op: Op)
    requires AllAgree(db) && Legal(db, op)
    ensures AllAgree(DoOp(pub, db, op))
  {
    var after := DoOp(pub, db, op);
    forall d: ClaimId ensures Agrees(after, d) {
      assert Agrees(db, d);
      if !Concerns(op, d) {
        OthersUntouched(pub, db, op, d);
      } else if op.Apply? && !Settled(db, d) {
        OwnReward(pub, db, d, if op.grant then op.ev.reward else NO_REWARD, op.now, op.announce && op.ev.announces);
      }
    }
  }

  lemma OpCounts(pub: Publisher, db: Db, op: Op)
    requires AllCount(db) && Legal(db, op)
    ensures AllCount(DoOp(pub, db, op))
  {
    var after := DoOp(pub, db, op);
    forall d: ClaimId ensures Counts(after, d) {
      assert Counts(db, d);
      if !Concerns(op, d) {
        OthersUntouched(pub, db, op, d);
      } else if op.Apply? && !Settled(db, d) {
        OwnRewardCounts(pub, db, d, if op.grant then op.ev.reward else NO_REWARD, op.now, op.announce
                        && op.ev.announces);
      }
    }
  }

  lemma {:induction false} OpsKeep(pub: Publisher, db: Db, ops: seq<Op>)
    requires AllLegal(pub, db, ops)
    ensures AllAgree(db) ==> AllAgree(DoOps(pub, db, ops))
    ensures AllCount(db) ==> AllCount(DoOps(pub, db, ops))
    decreases ops
  {
    if ops != [] {
      if AllAgree(db) { OpKeeps(pub, db, ops[0]); }
      if AllCount(db) { OpCounts(pub, db, ops[0]); }
      hide AllAgree, AllCount;
      OpsKeep(pub, DoOp(pub, db, ops[0]), ops[1..]);
    }
  }

  // ------------------------------------------------- a settled row is silent

  /** Once granted or exhausted, a row is neither rewritten nor paid again. */
  lemma {:induction false} SettledIsSilent(pub: Publisher, db: Db, ops: seq<Op>, c: ClaimId, m: nat)
    requires AllLegal(pub, db, ops) && Settled(db, c) && m <= |db.log|
    ensures var after := DoOps(pub, db, ops);
            && |db.log| <= |after.log| && after.marks == db.marks
            && c in after.claims && after.claims[c] == db.claims[c]
            && PaidSteps(after.log[m..], c) == PaidSteps(db.log[m..], c)
            && Failures(after.log[m..], c) == Failures(db.log[m..], c)
            && Announcements(after.log[m..], c) == Announcements(db.log[m..], c)
    decreases ops
  {
    if ops != [] {
      var op := ops[0];
      if op.Apply? && c != (op.ev.id, op.ev.version, op.account) {
        var d, spec := (op.ev.id, op.ev.version, op.account), if op.grant then op.ev.reward else NO_REWARD;
        OthersLogs(pub, db, d, spec, op.now, op.announce && op.ev.announces, m, c);
        OthersRows(pub, db, d, spec, op.now, op.announce && op.ev.announces, c);
      }
      SettledIsSilent(pub, DoOp(pub, db, op), ops[1..], c, m);
    }
  }
}
