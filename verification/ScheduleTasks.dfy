/** The generic tasks and the backup of the scheduler (scripts/admin_schedule.py): when
    one is due, and how often it runs over a whole history of ticks. */
module ScheduleTasks {
  import opened Arith
  import opened Wrappers
  import opened Schedule

  const CATCHUP_GRACE_SECS := 3600

  /** A daily slot, a number of minutes, or a backup every so many hours. `every` is
      None when it is not a number. */
  datatype Plan =
    | Daily(enabled: bool, days: set<int>, slotSecs: Option<int>)
    | Interval(enabled: bool, every: Option<int>)
    | Backup(enabled: bool, hours: int)

  /** A row of the run history. `slot` is the daily slot the daemon ran it for and
      `seen` the number of rows there were when the run was decided, both histories. */
  datatype TaskRow = TaskRow(status: Status, at: int, slot: Option<int>, seen: nat)

  function SlotOf(p: Plan, now: int): Option<int> {
    if !p.Daily? then None else SlotToday(Config(true, p.slotSecs, p.days, 0, 0, CATCHUP_GRACE_SECS), now)
  }

  /** Seconds between runs of a periodic plan. */
  function Period(p: Plan): Option<int> {
    match p
    case Daily(_, _, _) => None
    case Interval(_, every) => if every.None? then None else Some(60 * Max(every.value, 1))
    case Backup(_, hours) => Some(3600 * Max(hours, 1))
  }

  function Last(rows: seq<TaskRow>): Option<int> { if rows == [] then None else Some(rows[|rows| - 1].at) }

  /** The last run that settled its slot: an error leaves it open. */
  function LastSettled(rows: seq<TaskRow>): Option<int> {
    if rows == [] then None
    else if rows[|rows| - 1].status != Error then Some(rows[|rows| - 1].at)
    else LastSettled(rows[..|rows| - 1])
  }

  predicate Due(p: Plan, now: int, last: Option<int>) {
    && p.enabled
    && match p
       case Daily(_, days, _) =>
         var slot := SlotOf(p, now);
         && (days == {} || Weekday(now) in days)
         && slot.Some? && slot.value <= now < slot.value + CATCHUP_GRACE_SECS
         && (last.None? || last.value < slot.value)
       case _ =>
         Period(p).Some? && (last.None? || now >= last.value + Period(p).value)
  }

  predicate DueNow(p: Plan, rows: seq<TaskRow>, now: int) {
    Due(p, now, if p.Daily? then LastSettled(rows) else Last(rows))
  }

  /** A run the daemon has decided on, and not recorded yet. */
  datatype Started = Started(now: int, slot: Option<int>, seen: nat)
  datatype History = History(rows: seq<TaskRow>, running: Option<Started>)

  /** The daemon checks the task with the plan in force, and records what running it
      gave; a command in another process runs it by hand; the daemon dies. */
  datatype Event =
    | Check(now: int, plan: Plan)
    | Done(outcome: Status, clock: int)
    | ByHand(outcome: Status, clock: int)
    | Crash

  function Apply(h: History, e: Event): History {
    match e
    case Check(now, plan) =>
      if h.running.None? && DueNow(plan, h.rows, now)
          then h.(running := Some(Started(now, SlotOf(plan, now), |h.rows|))) else h
    case Done(outcome, clock) =>
      if h.running.None? then h
      else History(h.rows + [TaskRow(outcome, clock, h.running.value.slot, h.running.value.seen)], None)
    case ByHand(outcome, clock) => h.(rows := h.rows + [TaskRow(outcome, clock, None, |h.rows|)])
    case Crash => h.(running := None)
  }

  const NOTHING := History([], None)

  function Run(es: seq<Event>): History {
    if es == [] then NOTHING else Apply(Run(es[..|es| - 1]), es[|es| - 1])
  }

  /** The ledger of one task, kept by the daemon's loop. */
  class TaskLedger {
    var rows: seq<TaskRow>

    constructor ()
      ensures rows == []
    {
      rows := [];
    }

    method FindLast(settledOnly: bool) returns (at: Option<int>)
      ensures at == if settledOnly then LastSettled(rows) else Last(rows)
    {
      var i := |rows|;
      assert rows[..i] == rows;
      while i > 0 && settledOnly && rows[i - 1].status == Error
        invariant 0 <= i <= |rows|
        invariant if settledOnly then LastSettled(rows[..i]) == LastSettled(rows) else i == |rows|
      {
        assert rows[..i][..i - 1] == rows[..i - 1];
        i := i - 1;
      }
      if i == 0 {
        return None;
      }
      return Some(rows[i - 1].at);
    }

    method RunTask(now: int, plan: Plan, outcome: Status, clock: int)
      modifies this
      ensures rows == Apply(Apply(History(old(rows), None), Check(now, plan)), Done(outcome, clock)).rows
    {
      var last := FindLast(plan.Daily?);
      if Due(plan, now, last) {
        rows := rows + [TaskRow(outcome, clock, SlotOf(plan, now), |rows|)];
      }
    }

    /** run-task and run-backup. */
    method RunByHand(outcome: Status, clock: int)
      modifies this
      ensures rows == Apply(History(old(rows), None), ByHand(outcome, clock)).rows
    {
      rows := rows + [TaskRow(outcome, clock, None, |rows|)];
    }
  }

  /** Rows are stamped by a clock that does not run back. */
  predicate Timely(h: History, e: Event) {
    && (e.Done? || e.ByHand? ==> forall r | r in h.rows :: r.at <= e.clock)
    && (e.Done? && h.running.Some? ==> h.running.value.now <= e.clock)
  }

  predicate TimelyRun(es: seq<Event>) {
    es == [] || (TimelyRun(es[..|es| - 1]) && Timely(Run(es[..|es| - 1]), es[|es| - 1]))
  }

  predicate Ordered(rows: seq<TaskRow>) { forall i, j | 0 <= i <= j < |rows| :: rows[i].at <= rows[j].at }

  lemma {:induction false} LastSettledIsLatest(rows: seq<TaskRow>, i: nat)
    requires Ordered(rows) && i < |rows| && rows[i].status != Error
    ensures LastSettled(rows).Some? && LastSettled(rows).value >= rows[i].at
    decreases |rows|
  {
    if rows[|rows| - 1].status == Error {
      LastSettledIsLatest(rows[..|rows| - 1], i);
    }
  }

  /** What holds of a run for a slot: it began within the slot, after every other run of
      the daemon, with every row it saw either failed or older than the slot. */
  predicate Honest(rows: seq<TaskRow>, slot: Option<int>, seen: nat, at: int) {
    && seen <= |rows|
    && (slot.Some? ==>
          && slot.value <= at
          && (forall i | seen <= i < |rows| :: rows[i].slot.None?)
          && (forall i | 0 <= i < seen && rows[i].status != Error :: rows[i].at < slot.value))
  }

  predicate Inv(h: History) {
    && Ordered(h.rows)
    && (forall j | 0 <= j < |h.rows| :: Honest(h.rows[..j], h.rows[j].slot, h.rows[j].seen, h.rows[j].at))
    && (h.running.Some? ==> Honest(h.rows, h.running.value.slot, h.running.value.seen, h.running.value.now))
  }

  lemma CheckIsHonest(h: History, now: int, plan: Plan)
    requires Inv(h) && DueNow(plan, h.rows, now)
    ensures Honest(h.rows, SlotOf(plan, now), |h.rows|, now)
  {
    if plan.Daily? {
      forall i | 0 <= i < |h.rows| && h.rows[i].status != Error ensures h.rows[i].at < SlotOf(plan, now).value {
        LastSettledIsLatest(h.rows, i);
      }
    }
  }

  lemma ApplyKeepsInv(h: History, e: Event)
    requires Inv(h) && Timely(h, e)
    ensures Inv(Apply(h, e))
  {
    hide DueNow, SlotOf;
    var after := Apply(h, e);
    if e.Check? {
      if h.running.None? && DueNow(e.plan, h.rows, e.now) { CheckIsHonest(h, e.now, e.plan); }
    } else {
      assert h.rows <= after.rows;
      forall j | 0 <= j < |after.rows| ensures Honest(after.rows[..j], after.rows[j].slot, after.rows[j].seen,
                                                      after.rows[j].at) {
        assert after.rows[..j] == h.rows[..j];
      }
    }
  }

  lemma {:induction false} RunKeepsInv(es: seq<Event>)
    requires TimelyRun(es)
    ensures Inv(Run(es))
    decreases |es|
  {
    if es != [] {
      RunKeepsInv(es[..|es| - 1]);
      ApplyKeepsInv(Run(es[..|es| - 1]), es[|es| - 1]);
    }
  }

  /** Over every history of ticks, runs by hand, crashes and edits of the plan, no daily
      slot is settled twice: a slot that ran, or was skipped, is not run again. */
  lemma SlotSettlesOnce(es: seq<Event>, i: nat, j: nat)
    requires TimelyRun(es) && i < j < |Run(es).rows|
    requires Run(es).rows[i].status != Error && Run(es).rows[i].slot.Some?
    ensures Run(es).rows[j].slot != Run(es).rows[i].slot
  {
    RunKeepsInv(es);
    var rows := Run(es).rows;
    assert rows[..j][i] == rows[i];
  }

  /** A row that settles at or after the slot's time settles the slot, whoever wrote it:
      no run for the slot is decided on once the row is there. */
  lemma HandSettlesSlot(es: seq<Event>, i: nat, j: nat)
    requires TimelyRun(es) && i < j < |Run(es).rows| && i < Run(es).rows[j].seen
    requires Run(es).rows[i].status != Error && Run(es).rows[j].slot.Some?
    ensures Run(es).rows[i].at < Run(es).rows[j].slot.value
  {
    RunKeepsInv(es);
    var rows := Run(es).rows;
    assert rows[..j][i] == rows[i];
  }

  /** A periodic plan, a backup included, starts no run sooner than its period after any
      earlier row of its history, whatever that run's outcome and whoever ran it. */
  lemma PeriodicRunsAreSpaced(es: seq<Event>, now: int, plan: Plan, i: nat)
    requires TimelyRun(es) && !plan.Daily? && i < |Run(es).rows|
    requires Run(es).running.None? && Apply(Run(es), Check(now, plan)).running.Some?
    ensures now - Run(es).rows[i].at >= Period(plan).value >= 60
  {
    RunKeepsInv(es);
  }

  /** A failed daily run leaves the slot as due as it was, until the grace runs out; a
      failed periodic run waits its period like any other. */
  lemma ErrorRetriesDailyOnly(rows: seq<TaskRow>, row: TaskRow, p: Plan, now: int)
    requires row.status == Error
    ensures p.Daily? ==> (DueNow(p, rows + [row], now) <==> DueNow(p, rows, now))
    ensures !p.Daily? && DueNow(p, rows + [row], now) ==> now - row.at >= 60
  {
    assert (rows + [row])[..|rows|] == rows;
  }

  // ------------------------------------------------------------------ when a task runs

  /** No run settled, or the newest that did is older than the time. */
  predicate SettledBefore(rows: seq<TaskRow>, time: int) {
    forall i | 0 <= i < |rows| && rows[i].status != Error && (forall j | i < j < |rows| :: rows[j].status == Error) ::
      rows[i].at < time
  }

  lemma {:induction false} SettledIs(rows: seq<TaskRow>, time: int)
    ensures SettledBefore(rows, time) <==> (LastSettled(rows).None? || LastSettled(rows).value < time)
    decreases |rows|
  {
    if rows != [] {
      var n := |rows| - 1;
      var front := rows[..n];
      SettledIs(front, time);
      if rows[n].status != Error {
        assert SettledBefore(rows, time) ==> rows[n].at < time;
      } else {
        SameSettled(rows, time);
      }
    }
  }

  lemma SameSettled(rows: seq<TaskRow>, time: int)
    requires rows != [] && rows[|rows| - 1].status == Error
    ensures SettledBefore(rows, time) <==> SettledBefore(rows[..|rows| - 1], time)
  {
    var front := rows[..|rows| - 1];
    if SettledBefore(front, time) {
      forall i | 0 <= i < |rows| && rows[i].status != Error && (forall j | i < j < |rows| :: rows[j].status == Error)
        ensures rows[i].at < time
      {
        assert front[i] == rows[i] && forall j | i < j < |front| :: front[j] == rows[j];
      }
    }
    if SettledBefore(rows, time) {
      forall i | 0 <= i < |front| && front[i].status != Error && (forall j | i < j < |front| ::
                                                                  front[j].status == Error)
        ensures front[i].at < time
      {
        assert front[i] == rows[i];
        forall j | i < j < |rows| ensures rows[j].status == Error { if j < |front| { assert front[j] == rows[j]; } }
      }
    }
  }

  /** The check and the record of one task by a tick nobody disturbs. */
  function Tick(rows: seq<TaskRow>, plan: Plan, now: int, outcome: Status, clock: int): seq<TaskRow> {
    Apply(Apply(History(rows, None), Check(now, plan)), Done(outcome, clock)).rows
  }

  /** A daily task runs, and is recorded once, exactly when it is on, the day is listed (from
      Monday), the time is within the hour of its slot, and no settled run marks the slot. */
  lemma DailyRunsIff(rows: seq<TaskRow>, enabled: bool, days: set<int>, slotSecs: Option<int>, now: int,
                     outcome: Status, clock: int)
    ensures var slot := if slotSecs.Some? then now - now % 86400 + slotSecs.value else 0;
            Tick(rows, Daily(enabled, days, slotSecs), now, outcome, clock) ==
            rows + if && enabled && (days == {} || (now / 86400 + 3) % 7 in days)
                      && slotSecs.Some? && 0 <= slotSecs.value < 86400 && slot <= now < slot + 3600
                      && SettledBefore(rows, slot)
                   then [TaskRow(outcome, clock, Some(slot), |rows|)] else []
  {
    hide SettledBefore, LastSettled;
    assert now == now / 86400 * 86400 + now % 86400;
    if slotSecs.Some? { SettledIs(rows, now - now % 86400 + slotSecs.value); }
  }

  /** An interval task runs exactly when it is on, its minutes are a number, and that many,
      one at least, are over since its newest row. */
  lemma IntervalRunsIff(rows: seq<TaskRow>, enabled: bool, every: Option<int>, now: int, outcome: Status, clock: int)
    ensures Tick(rows, Interval(enabled, every), now, outcome, clock) ==
            rows + if && enabled && every.Some?
                      && (rows == [] || now - rows[|rows| - 1].at >= (if every.value < 1 then 60 else every.value * 60))
                   then [TaskRow(outcome, clock, None, |rows|)] else []
  {
  }

  /** A backup runs exactly when it is on and its hours, one at least, are over since the newest. */
  lemma BackupRunsIff(rows: seq<TaskRow>, enabled: bool, hours: int, now: int, outcome: Status, clock: int)
    ensures Tick(rows, Backup(enabled, hours), now, outcome, clock) ==
            rows + if enabled && (rows == [] || now - rows[|rows| - 1].at >= (if hours < 1 then 3600 else hours * 3600))
                   then [TaskRow(outcome, clock, None, |rows|)] else []
  {
  }
}
