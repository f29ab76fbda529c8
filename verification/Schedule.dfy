/** The restart protocol of the scheduler (scripts/admin_schedule.py) as a machine
    of single ledger writes.

    Every write commits on its own and the process usually dies during the call it
    makes, so a tick is a program counter that advances one write at a time and can
    crash anywhere. Operator commands (arm-restart, cancel-restart, run-restart) run
    in other processes: their writes may land between any two steps of a tick.
    Times are the whole seconds the ledger stores. */
module Schedule {
  import opened Arith
  import opened Wrappers

  const STALE_RESTART_SECS := 600
  const DAY_SECS := 86400

  /** `at` is what the ledger stores; `id` numbers the arms of the whole run and
      `slot` is the schedule slot that armed it, both histories. */
  datatype Intent = Intent(at: int, id: nat, slot: Option<int>)
  datatype Task = Restart | RestartWarn | RestartArmed | RestartCancel
  datatype Status = Ok | Error | Skipped
  datatype Row = Row(task: Task, status: Status, at: int)
  datatype Ledger = Ledger(pending: Option<Intent>, warnAt: Option<int>, warnFreq: Option<int>, runs: seq<Row>)

  /** `slotSecs` is the configured HH:MM as seconds into the day, None when malformed. */
  datatype Config = Config(enabled: bool, slotSecs: Option<int>, days: set<int>, warnLead: int, warnFreq: int,
                           grace: int)

  // ------------------------------------------------------------- slot logic

  function Day(now: int): int { now / DAY_SECS }

  /** Monday is 0; day 0 of the epoch was a Thursday. */
  function Weekday(now: int): int { (Day(now) + 3) % 7 }

  function SlotToday(cfg: Config, now: int): Option<int> {
    match cfg.slotSecs
    case None => None
    case Some(s) => if 0 <= s < DAY_SECS then Some(Day(now) * DAY_SECS + s) else None
  }

  /** When the newest row of the task was stamped. */
  function LastOf(runs: seq<Row>, task: Task): Option<int> {
    if runs == [] then None
    else if runs[|runs| - 1].task == task then Some(runs[|runs| - 1].at)
    else LastOf(runs[..|runs| - 1], task)
  }

  function LastWarn(runs: seq<Row>): Option<int> { LastOf(runs, RestartWarn) }

  predicate RestartDue(cfg: Config, now: int, lastWarn: Option<int>) {
    var slot := SlotToday(cfg, now);
    && cfg.enabled
    && (cfg.days == {} || Weekday(now) in cfg.days)
    && slot.Some? && slot.value <= now < slot.value + Max(cfg.grace, 0)
    && (lastWarn.None? || lastWarn.value < slot.value)
  }

  // ------------------------------------------------------------ the machine

  /** What the daemon does next. */
  datatype Pc =
    | Idle
    | ClearPending(now: int, due: Intent)
    | ClearWarn(now: int, due: Intent)
    | ClearSpec(now: int, due: Intent)
    | Decide(now: int, due: Intent)
    | CallPanel(now: int, due: Intent)
    | NoteFailure
    | NoteUnconfigured(now: int)
    | ReadSlot(now: int, cfg: Config, configured: bool)
    | SetPending(now: int, cfg: Config)
    | SetWarn(now: int, armed: Intent, cfg: Config)
    | SetSpec(now: int, armed: Intent, cfg: Config)
    | ReadWarn(now: int, pend: Option<Intent>)
    | Broadcast(now: int, shown: Intent)
    | DropWarn(now: int, shown: Intent, ok: bool)
    | NoteWarn(now: int, shown: Intent, ok: bool)

  /** One restart asked of the panel, at the time its tick began. */
  datatype Call = Call(intent: Intent, now: int)

  datatype State = State(ledger: Ledger, pc: Pc, arms: nat, calls: seq<Call>, armedSlots: seq<int>)

  datatype Micro =
    | Begin(now: int, cfg: Config, configured: bool)
    | Go(reply: bool, clock: int)
    | Crash
    | OpSetPending(at: int)
    | OpSetWarn(at: int)
    | OpSetSpec(freq: int)
    | OpClearPending
    | OpClearWarn
    | OpClearSpec
    | OpRecord(row: Row)

  function Record(l: Ledger, row: Row): Ledger { l.(runs := l.runs + [row]) }

  /** The daemon reads the pending restart and takes its branch. */
  function BeginTick(s: State, now: int, cfg: Config, configured: bool): State {
    var pend := s.ledger.pending;
    if pend.Some? && now >= pend.value.at then s.(pc := ClearPending(now, pend.value))
    else s.(pc := if pend.None? then ReadSlot(now, cfg, configured) else ReadWarn(now, pend))
  }

  function GoOn(s: State, reply: bool, clock: int): State {
    match s.pc
    case Idle => s
    case ClearPending(now, due) => s.(ledger := s.ledger.(pending := None), pc := ClearWarn(now, due))
    case ClearWarn(now, due) => s.(ledger := s.ledger.(warnAt := None), pc := ClearSpec(now, due))
    case ClearSpec(now, due) => s.(ledger := s.ledger.(warnFreq := None), pc := Decide(now, due))
    case Decide(now, due) =>
      if now - due.at > STALE_RESTART_SECS then s.(ledger := Record(s.ledger, Row(Restart, Skipped, clock)), pc := Idle)
      else s.(ledger := Record(s.ledger, Row(Restart, Ok, clock)), pc := CallPanel(now, due))
    case CallPanel(now, due) => s.(calls := s.calls + [Call(due, now)], pc := if reply then Idle else NoteFailure)
    case NoteFailure => s.(ledger := Record(s.ledger, Row(Restart, Error, clock)), pc := Idle)
    case NoteUnconfigured(now) => s.(ledger := Record(s.ledger, Row(RestartWarn, Skipped, clock)),
                                     pc := ReadWarn(now, None))
    case ReadSlot(now, cfg, configured) =>
      if !RestartDue(cfg, now, LastWarn(s.ledger.runs)) then s.(pc := ReadWarn(now, None))
      else s.(pc := if configured then SetPending(now, cfg) else NoteUnconfigured(now))
    case SetPending(now, cfg) =>
      var armed := Intent(now + Max(cfg.warnLead, 0), s.arms, SlotToday(cfg, now));
      s.(ledger := s.ledger.(pending := Some(armed)), pc := SetWarn(now, armed, cfg), arms := s.arms + 1,
         armedSlots := if armed.slot.Some? then s.armedSlots + [armed.slot.value] else s.armedSlots)
    case SetWarn(now, armed, cfg) =>
      s.(ledger := s.ledger.(warnAt := Some(armed.at - Max(cfg.warnLead, 0))), pc := SetSpec(now, armed, cfg))
    case SetSpec(now, armed, cfg) =>
      s.(ledger := s.ledger.(warnFreq := Some(Max(cfg.warnFreq, 1))), pc := ReadWarn(now, Some(armed)))
    case ReadWarn(now, pend) =>
      if pend.Some? && s.ledger.warnAt.Some? && now >= s.ledger.warnAt.value then s.(pc := Broadcast(now, pend.value))
      else s.(pc := Idle)
    case Broadcast(now, shown) => s.(pc := DropWarn(now, shown, reply))
    case DropWarn(now, shown, ok) => s.(ledger := s.ledger.(warnAt := None), pc := NoteWarn(now, shown, ok))
    case NoteWarn(now, shown, ok) => s.(ledger := Record(s.ledger, Row(RestartWarn, if ok then Ok else Error, clock)),
                                        pc := Idle)
  }

  function Do(s: State, m: Micro): State {
    match m
    case Begin(now, cfg, configured) => if s.pc == Idle then BeginTick(s, now, cfg, configured) else s
    case Go(reply, clock) => GoOn(s, reply, clock)
    case Crash => s.(pc := Idle)
    case OpSetPending(at) => s.(ledger := s.ledger.(pending := Some(Intent(at, s.arms, None))), arms := s.arms + 1)
    case OpSetWarn(at) => s.(ledger := s.ledger.(warnAt := Some(at)))
    case OpSetSpec(freq) => s.(ledger := s.ledger.(warnFreq := Some(Max(freq, 1))))
    case OpClearPending => s.(ledger := s.ledger.(pending := None))
    case OpClearWarn => s.(ledger := s.ledger.(warnAt := None))
    case OpClearSpec => s.(ledger := s.ledger.(warnFreq := None))
    case OpRecord(row) => s.(ledger := Record(s.ledger, row))
  }

  const START := State(Ledger(None, None, None, []), Idle, 0, [], [])

  function RunFrom(s: State, ms: seq<Micro>): State
    decreases ms
  {
    if ms == [] then s else RunFrom(Do(s, ms[0]), ms[1..])
  }

  // -------------------------------------------------------- the commands

  /** The ledger writes of arm-restart and of the arming step of a tick. */
  function ArmScript(at: int, window: int, freq: int): seq<Micro> {
    [OpSetPending(at), OpSetWarn(at - Max(window, 0)), OpSetSpec(freq)]
  }

  const CANCEL_SCRIPT := [OpClearPending, OpClearWarn, OpClearSpec]

  /** How many steps a tick still has at most. */
  function StepsLeft(pc: Pc): nat {
    match pc
    case Idle => 0
    case ClearPending(_, _) => 6
    case ClearWarn(_, _) => 5
    case ClearSpec(_, _) => 4
    case Decide(_, _) => 3
    case CallPanel(_, _) => 2
    case NoteFailure => 1
    case NoteUnconfigured(_) => 5
    case ReadSlot(_, _, _) => 8
    case SetPending(_, _) => 7
    case SetWarn(_, _, _) => 6
    case SetSpec(_, _, _) => 5
    case ReadWarn(_, _) => 4
    case Broadcast(_, _) => 3
    case DropWarn(_, _, _) => 2
    case NoteWarn(_, _, _) => 1
  }

  /** The rest of a tick nobody disturbs, answered by `replies` and stamped by `clock`. */
  function Finish(s: State, replies: Pc -> bool, clock: int): State
    decreases StepsLeft(s.pc)
  {
    if s.pc == Idle then s else Finish(GoOn(s, replies(s.pc), clock), replies, clock)
  }

  function WholeTick(s: State, now: int, cfg: Config, configured: bool, replies: Pc -> bool, clock: int): State {
    Finish(BeginTick(s.(pc := Idle), now, cfg, configured), replies, clock)
  }
}
