/** The player-events engine: event definitions, award claims and one tick
    (scripts/admin_events.py).

    `pub(n)` is the result code of the n-th delivery call of the whole run. A tick
    runs in one transaction: a game read that fails rolls the tables back, but the
    calls already made to the publisher stay made, so `log` survives a rollback.
    `marks` (where the log stood when an event was last reset), `plans` (the reward a
    claim was last delivered under, and whether that delivery finished) and `misses`
    (how often the player of a claim was not found) are histories. */
module Events {
  import opened Wrappers
  import opened Rewards

  const MAX_ATTEMPTS := 3
  const RETRY_BACKOFF_SECS := 24 * 3600
  const DEFAULT_POLL_SECS := 7
  const NO_REWARD := Spec(0, [], [])

  type Account = int
  type EventId = int
  /** (event, version, account): the primary key of the claims table. */
  type ClaimId = (EventId, int, Account)
  type Publisher = nat -> int

  datatype Position = Position(world: string, x: real, y: real, z: real)
  datatype Config =
    | ZoneRace(world: string, x: real, y: real, z: real, radius: real, participants: seq<Account>)
    | LevelMilestone(threshold: int, awardPast: bool)
    | TagMilestone(awardPast: bool)
  datatype EventDef = EventDef(id: EventId, version: int, enabled: bool, config: Config, reward: Spec,
                               announces: bool, pollSeconds: int)

  datatype ClaimStatus = Pending | Granted | Exhausted
  datatype ClaimRow = ClaimRow(status: ClaimStatus, cursor: Cursor, attempts: nat, nextAttemptAt: int)
  datatype Call =
    | Grant(claim: ClaimId, step: RewardStep, rc: int)
    | Announce(claim: ClaimId)

  datatype Plan = Plan(spec: Spec, done: bool)

  datatype Db = Db(defs: seq<EventDef>, nextId: EventId, claims: map<ClaimId, ClaimRow>, nextDue: map<EventId, int>,
                   log: seq<Call>, marks: map<EventId, nat>, plans: map<ClaimId, Plan>, misses: map<ClaimId, nat>)

  /** What the game reads for one event answer during a tick; None is a read that fails. */
  datatype Reading = Reading(positions: Option<map<Account, Position>>, levels: Option<map<Account, int>>,
                             holders: Option<seq<Account>>, jitter: nat)
  datatype Target = QueryFails | Nobody | Found
  datatype Outcome = Delivered | Skipped | Failed

  // ------------------------------------------------------------- one claim

  predicate Settled(db: Db, c: ClaimId) {
    c in db.claims && db.claims[c].status != Pending
  }

  function SealGranted(db: Db, c: ClaimId): Db {
    db.(claims := db.claims[c := if c in db.claims then db.claims[c].(status := Granted, cursor := Blank)
                                 else ClaimRow(Granted, Blank, 0, 0)])
  }

  function RecordFailed(db: Db, c: ClaimId, cursor: Cursor, now: int): Db {
    var row :=
      if c !in db.claims then ClaimRow(Pending, cursor, 1, now + RETRY_BACKOFF_SECS)
      else
        var n := db.claims[c].attempts + 1;
        ClaimRow(if n >= MAX_ATTEMPTS then Exhausted else Pending, cursor, n, now + RETRY_BACKOFF_SECS);
    db.(claims := db.claims[c := row])
  }

  function Misses(db: Db, c: ClaimId): nat { if c in db.misses then db.misses[c] else 0 }

  /** A player who is not found costs an attempt like a failed delivery. */
  function RecordMiss(db: Db, c: ClaimId, now: int): Db {
    RecordFailed(db, c, StoredCursor(db, c), now).(misses := db.misses[c := Misses(db, c) + 1])
  }

  /** The delivery loop: the extended log and the step that failed, if one did. */
  function DeliverSteps(pub: Publisher, log: seq<Call>, c: ClaimId, todo: seq<RewardStep>): (seq<Call>,
      Option<RewardStep>)
    decreases todo
  {
    if todo == [] then (log, None)
    else
      var rc := pub(|log|);
      var called := log + [Grant(c, todo[0], rc)];
      if rc != 0 then (called, Some(todo[0])) else DeliverSteps(pub, called, c, todo[1..])
  }

  function StoredCursor(db: Db, c: ClaimId): Cursor { if c in db.claims then db.claims[c].cursor else Blank }

  /** An open claim under the spec it is owed: sealed without a reward, parked when
      the reward was edited in mid-delivery, delivered otherwise. */
  function ApplyReward(pub: Publisher, db: Db, c: ClaimId, spec: Spec, now: int, announce: bool): (Db, Outcome) {
    var cursor := StoredCursor(db, c);
    if IsEmpty(spec) then (Announced(SealGranted(db, c), c, announce), Delivered)
    else if cursor != Blank && !CursorMatchesSpec(cursor, spec) then (Park(db, c), Failed)
    else
      var (after, ok) := DeliverSpec(pub, db, c, spec, cursor, now);
      if ok then (Announced(after, c, announce), Delivered) else (after, Failed)
  }

  function Park(db: Db, c: ClaimId): Db {
    if c in db.claims then db.(claims := db.claims[c := db.claims[c].(status := Exhausted, attempts := MAX_ATTEMPTS)])
        else db
  }

  function ApplyOutcome(pub: Publisher, db: Db, ev: EventDef, account: Account, now: int, announce: bool,
                        grant: bool): (Db, Outcome) {
    var c := (ev.id, ev.version, account);
    if Settled(db, c) then (db, Skipped)
    else ApplyReward(pub, db, c, if grant then ev.reward else NO_REWARD, now, announce && ev.announces)
  }

  /** Deliver what the cursor leaves of a spec, and write the row accordingly. */
  function DeliverSpec(pub: Publisher, db: Db, c: ClaimId, spec: Spec, cursor: Cursor, now: int): (Db, bool) {
    var (log, failed) := DeliverSteps(pub, db.log, c, Remaining(spec, cursor));
    var called := db.(log := log, plans := db.plans[c := Plan(spec, failed.None?)]);
    if failed.Some? then (RecordFailed(called, c, CursorOf(failed.value, spec), now), false)
    else (SealGranted(called, c), true)
  }

  function Announced(db: Db, c: ClaimId, announce: bool): Db {
    if announce then db.(log := db.log + [Announce(c)]) else db
  }

  // ------------------------------------------------------------ evaluating

  /** The qualifiers of a milestone, one by one; false is a lookup that raises. */
  function EvalQualifiers(pub: Publisher, db: Db, ev: EventDef, quals: seq<Account>, online: seq<Account>,
                          now: int): (Db, bool)
    decreases quals
  {
    if quals == [] then (db, true)
    else if Settled(db, (ev.id, ev.version, quals[0])) then EvalQualifiers(pub, db, ev, quals[1..], online, now)
    else if quals[0] !in online then (db, false)
    else EvalQualifiers(pub, ApplyOutcome(pub, db, ev, quals[0], now, true, true).0, ev, quals[1..], online, now)
  }

  predicate InZone(zone: Config, at: Position)
    requires zone.ZoneRace?
  {
    && (zone.world == "" || at.world == zone.world)
    && (at.x - zone.x) * (at.x - zone.x) + (at.y - zone.y) * (at.y - zone.y) + (at.z - zone.z) * (at.z - zone.z)
       <= zone.radius * zone.radius
  }

  /** The first participant in list order inside the zone whose claim is open. */
  function Winner(db: Db, ev: EventDef, participants: seq<Account>, positions: map<Account, Position>): Option<Account>
    requires ev.config.ZoneRace?
  {
    if participants == [] then None
    else
      var a := participants[0];
      if a in positions && InZone(ev.config, positions[a]) && !Settled(db, (ev.id, ev.version, a)) then Some(a)
      else Winner(db, ev, participants[1..], positions)
  }

  function EvalZone(pub: Publisher, db: Db, ev: EventDef, online: seq<Account>,
                    positions: Option<map<Account, Position>>, now: int): (Db, bool)
    requires ev.config.ZoneRace?
  {
    if forall a | a in ev.config.participants :: a !in online then (db, true)
    else if positions.None? then (db, false)
    else
      match Winner(db, ev, ev.config.participants, positions.value)
      case None => (db, true)
      case Some(a) => if a !in online then (db, false) else (ApplyOutcome(pub, db, ev, a, now, true, true).0, true)
  }

  function LevelQualifiers(online: seq<Account>, levels: map<Account, int>, threshold: int): seq<Account> {
    if online == [] then []
    else
      (if (if online[0] in levels then levels[online[0]] else 0) >= threshold then [online[0]] else [])
      + LevelQualifiers(online[1..], levels, threshold)
  }

  function Qualifiers(config: Config, online: seq<Account>, r: Reading): Option<seq<Account>>
    requires !config.ZoneRace?
  {
    match config
    case LevelMilestone(threshold, _) => if r.levels.None? then None
      else Some(LevelQualifiers(online, r.levels.value, threshold))
    case TagMilestone(_) => r.holders
  }

  function EvaluateEvent(pub: Publisher, db: Db, ev: EventDef, online: seq<Account>, r: Reading, now: int): (Db, bool) {
    if ev.config.ZoneRace? then EvalZone(pub, db, ev, online, r.positions, now)
    else
      match Qualifiers(ev.config, online, r)
      case None => (db, false)
      case Some(quals) => EvalQualifiers(pub, db, ev, quals, online, now)
  }

  function EvaluateDue(pub: Publisher, db: Db, due: seq<EventDef>, online: seq<Account>, readings: EventId -> Reading,
                       now: int): (Db, bool)
    decreases due
  {
    if due == [] then (db, true)
    else
      var ev := due[0];
      var (after, ok) := EvaluateEvent(pub, db, ev, online, readings(ev.id), now);
      if !ok then (after, false)
      else
        var poll := if ev.pollSeconds > 0 then ev.pollSeconds else DEFAULT_POLL_SECS;
        var stamped := after.(nextDue := after.nextDue[ev.id := now + poll + readings(ev.id).jitter]);
        EvaluateDue(pub, stamped, due[1..], online, readings, now)
  }

  // -------------------------------------------------------------- backfill

  function BackfillQualifiers(pub: Publisher, db: Db, ev: EventDef, quals: seq<Account>, online: seq<Account>,
                              awardPast: bool, now: int): (Db, bool)
    decreases quals
  {
    if quals == [] then (db, true)
    else if (ev.id, ev.version, quals[0]) in db.claims
        then BackfillQualifiers(pub, db, ev, quals[1..], online, awardPast, now)
    else if quals[0] !in online then (db, false)
    else BackfillQualifiers(pub, ApplyOutcome(pub, db, ev, quals[0], now, false, awardPast).0, ev, quals[1..], online,
                            awardPast, now)
  }

  function Backfill(pub: Publisher, db: Db, events: seq<EventDef>, online: seq<Account>, readings: EventId -> Reading,
                    now: int): (Db, bool)
    decreases events
  {
    if events == [] then (db, true)
    else
      var ev := events[0];
      if ev.config.ZoneRace? || !ev.enabled then Backfill(pub, db, events[1..], online, readings, now)
      else
        match Qualifiers(ev.config, online, readings(ev.id))
        case None => (db, false)
        case Some(quals) =>
          var (after, ok) := BackfillQualifiers(pub, db, ev, quals, online, ev.config.awardPast, now);
          if !ok then (after, false) else Backfill(pub, after, events[1..], online, readings, now)
  }

  // ------------------------------------------------------------ retry pass

  function FindDef(defs: seq<EventDef>, id: EventId, version: int): Option<EventDef> {
    if defs == [] then None
    else if defs[0].id == id && defs[0].version == version then Some(defs[0])
    else FindDef(defs[1..], id, version)
  }

  predicate RetryDue(db: Db, c: ClaimId, now: int) {
    && c in db.claims && db.claims[c].status == Pending && db.claims[c].attempts < MAX_ATTEMPTS
    && db.claims[c].nextAttemptAt <= now && FindDef(db.defs, c.0, c.1).Some?
  }

  function RetryRows(db: Db, now: int): set<ClaimId> { set c | c in db.claims && RetryDue(db, c, now) }

  function RetryPass(pub: Publisher, db: Db, order: seq<ClaimId>, rows: set<ClaimId>, targets: ClaimId -> Target,
                     now: int): (Db, bool)
    decreases order
  {
    if order == [] then (db, true)
    else
      var c := order[0];
      var ev := FindDef(db.defs, c.0, c.1);
      if c !in rows || ev.None? then RetryPass(pub, db, order[1..], rows - {c}, targets, now)
      else
        match targets(c)
        case QueryFails => (db, false)
        case Nobody =>
          RetryPass(pub, RecordMiss(db, c, now), order[1..], rows - {c}, targets, now)
        case Found =>
          RetryPass(pub, ApplyOutcome(pub, db, ev.value, c.2, now, false, true).0, order[1..], rows - {c}, targets, now)
  }

  // -------------------------------------------------------------- one tick

  /** Everything a tick reads from outside the database. */
  datatype Inputs = Inputs(on: bool, now: int, boot: bool, players: Option<seq<Account>>, readings: EventId -> Reading,
                           bootReadings: EventId -> Reading, targets: ClaimId -> Target, retryOrder: seq<ClaimId>)

  predicate IsDue(db: Db, ev: EventDef, now: int) {
    ev.enabled && (ev.id !in db.nextDue || db.nextDue[ev.id] <= now)
  }

  function DueEvents(db: Db, defs: seq<EventDef>, now: int): seq<EventDef> {
    if defs == [] then []
    else (if IsDue(db, defs[0], now) then [defs[0]] else []) + DueEvents(db, defs[1..], now)
  }

  /** The accounts of the online players, each once, in the order first listed. */
  function Accounts(players: seq<Account>): seq<Account> {
    if players == [] then []
    else
      var before := Accounts(players[..|players| - 1]);
      if players[|players| - 1] in before then before else before + [players[|players| - 1]]
  }

  /** The transaction up to its commit, or up to the read that raised. */
  function TickBody(pub: Publisher, db: Db, t: Inputs): (Db, bool) {
    var due := DueEvents(db, db.defs, t.now);
    var needed := due != [] || t.boot;
    if needed && t.players.None? then (db, false)
    else
      var online := if needed then Accounts(t.players.value) else [];
      var (filled, ok) := if t.boot then Backfill(pub, db, db.defs, online, t.bootReadings, t.now) else (db, true);
      if !ok then (filled, false)
      else
        var (evaluated, ok) := EvaluateDue(pub, filled, due, online, t.readings, t.now);
        if !ok then (evaluated, false)
        else RetryPass(pub, evaluated, t.retryOrder, RetryRows(evaluated, t.now), t.targets, t.now)
  }

  function RunTick(pub: Publisher, db: Db, t: Inputs): Db {
    if !t.on then db
    else
      var (after, ok) := TickBody(pub, db, t);
      if ok then after else db.(log := after.log)
  }

  // ------------------------------------------------------------- operators

  function Forget(db: Db, id: EventId): Db {
    db.(claims := map c | c in db.claims && c.0 != id :: db.claims[c],
        marks := db.marks[id := |db.log|],
        plans := map c | c in db.plans && c.0 != id :: db.plans[c],
        misses := map c | c in db.misses && c.0 != id :: db.misses[c])
  }

  function CreateEvent(db: Db, ev: EventDef): Db {
    db.(defs := db.defs + [ev.(id := db.nextId, version := 1, enabled := false)], nextId := db.nextId + 1)
  }

  /** `edited` is the merged row; id, version, type and the enabled flag stay. */
  function UpdateEvent(db: Db, id: EventId, edited: EventDef): Db {
    db.(defs := seq(|db.defs|, i requires 0 <= i < |db.defs| =>
                      if db.defs[i].id == id then edited.(id := id, version := db.defs[i].version,
                                                          enabled := db.defs[i].enabled)
                      else db.defs[i]))
  }

  function SetEnabled(db: Db, id: EventId, enabled: bool): Db {
    db.(defs := seq(|db.defs|, i requires 0 <= i < |db.defs| =>
                      if db.defs[i].id == id then db.defs[i].(enabled := enabled) else db.defs[i]))
  }

  function WithoutEvent(defs: seq<EventDef>, id: EventId): seq<EventDef> {
    if defs == [] then [] else (if defs[0].id == id then [] else [defs[0]]) + WithoutEvent(defs[1..], id)
  }

  function DeleteEvent(db: Db, id: EventId): Db {
    Forget(db, id).(defs := WithoutEvent(db.defs, id), nextDue := db.nextDue - {id})
  }
}
