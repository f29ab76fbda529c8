/** When an undisturbed tick of the scheduler arms, announces, fires, discards and runs, in
    seconds of the day, days of the week and rows of the history. */
module ScheduleSlots {
  import opened Arith
  import opened Wrappers
  import opened Schedule
  import opened ScheduleSafety

  /** No announcement is recorded, or the newest is older than the time. */
  predicate NewestWarnBefore(runs: seq<Row>, time: int) {
    forall i | 0 <= i < |runs| && runs[i].task == RestartWarn && (forall j | i < j < |runs| ::
                                                                  runs[j].task != RestartWarn) ::
      runs[i].at < time
  }

  lemma {:induction false} NewestWarnIs(runs: seq<Row>, time: int)
    ensures NewestWarnBefore(runs, time) <==> (LastWarn(runs).None? || LastWarn(runs).value < time)
    decreases |runs|
  {
    if runs != [] {
      var n := |runs| - 1;
      var front := runs[..n];
      NewestWarnIs(front, time);
      if runs[n].task == RestartWarn {
        assert NewestWarnBefore(runs, time) ==> runs[n].at < time;
      } else {
        assert NewestWarnBefore(runs, time) <==> NewestWarnBefore(front, time) by { SameNewest(runs, time); }
      }
    }
  }

  lemma SameNewest(runs: seq<Row>, time: int)
    requires runs != [] && runs[|runs| - 1].task != RestartWarn
    ensures NewestWarnBefore(runs, time) <==> NewestWarnBefore(runs[..|runs| - 1], time)
  {
    var front := runs[..|runs| - 1];
    if NewestWarnBefore(front, time) {
      forall i | 0 <= i < |runs| && runs[i].task == RestartWarn && (forall j | i < j < |runs| ::
                                                                    runs[j].task != RestartWarn)
        ensures runs[i].at < time
      {
        assert front[i] == runs[i] && forall j | i < j < |front| :: front[j] == runs[j];
      }
    }
    if NewestWarnBefore(runs, time) {
      forall i | 0 <= i < |front| && front[i].task == RestartWarn && (forall j | i < j < |front| ::
                                                                      front[j].task != RestartWarn)
        ensures front[i].at < time
      {
        assert front[i] == runs[i];
        forall j | i < j < |runs| ensures runs[j].task != RestartWarn { if j < |front| { assert front[j] == runs[j]; } }
      }
    }
  }

  /** The slot of the day is open: the engine is on, the day is listed, the time is within
      the grace, and no announcement marks the slot. Days count from Monday. */
  predicate SlotOpen(cfg: Config, now: int, runs: seq<Row>) {
    && cfg.enabled
    && (cfg.days == {} || (now / 86400 + 3) % 7 in cfg.days)
    && cfg.slotSecs.Some? && 0 <= cfg.slotSecs.value < 86400
    && cfg.slotSecs.value <= now % 86400 && now % 86400 < cfg.slotSecs.value + (if cfg.grace > 0 then cfg.grace else 0)
    && NewestWarnBefore(runs, now - now % 86400 + cfg.slotSecs.value)
  }

  lemma DueIsOpen(cfg: Config, now: int, runs: seq<Row>)
    ensures RestartDue(cfg, now, LastWarn(runs)) <==> SlotOpen(cfg, now, runs)
    ensures SlotOpen(cfg, now, runs) ==> SlotToday(cfg, now) == Some(now - now % 86400 + cfg.slotSecs.value)
  {
    hide NewestWarnBefore, LastWarn;
    assert now == now / 86400 * 86400 + now % 86400;
    if cfg.slotSecs.Some? { NewestWarnIs(runs, now - now % 86400 + cfg.slotSecs.value); }
  }

  /** Left alone with nothing pending, a tick arms a restart exactly when the panel is
      configured and the slot is open, and then it arms that slot. */
  lemma TickArmsIff(s: State, now: int, cfg: Config, configured: bool, replies: Pc -> bool, clock: int)
    requires s.ledger.pending.None?
    ensures var after := WholeTick(s, now, cfg, configured, replies, clock);
            after.armedSlots ==
            s.armedSlots + if configured && SlotOpen(cfg, now, s.ledger.runs)
                then [now - now % 86400 + cfg.slotSecs.value] else []
  {
    hide WholeTick, RestartDue, SlotOpen, SlotToday;
    DueIsOpen(cfg, now, s.ledger.runs);
    ReachesAnnouncement(s, now, cfg, configured, replies, clock);
  }

  /** A slot that is open while the panel is not configured is noted as skipped, once, and
      nothing is armed. */
  lemma UnconfiguredIsNoted(s: State, now: int, cfg: Config, replies: Pc -> bool, clock: int)
    requires s.ledger.pending.None? && SlotOpen(cfg, now, s.ledger.runs)
    ensures var after := WholeTick(s, now, cfg, false, replies, clock);
            && after.ledger == s.ledger.(runs := s.ledger.runs + [Row(RestartWarn, Skipped, clock)])
            && after.calls == s.calls && after.arms == s.arms
  {
    hide WholeTick, RestartDue, SlotOpen;
    DueIsOpen(cfg, now, s.ledger.runs);
    ReachesAnnouncement(s, now, cfg, false, replies, clock);
  }

  /** While a restart is pending no slot is armed: the tick announces it when its window has
      come, once, and otherwise changes nothing. */
  lemma PendingIsAnnounced(s: State, now: int, cfg: Config, configured: bool, replies: Pc -> bool, clock: int)
    requires s.ledger.pending.Some? && now < s.ledger.pending.value.at
    ensures var after, x := WholeTick(s, now, cfg, configured, replies, clock), s.ledger.pending.value;
            && after.armedSlots == s.armedSlots && after.arms == s.arms && after.calls == s.calls
            && after.ledger ==
               if s.ledger.warnAt.Some? && s.ledger.warnAt.value <= now then
                 s.ledger.(warnAt := None,
                           runs := s.ledger.runs + [Row(RestartWarn, if replies(Broadcast(now, x)) then Ok else Error,
                                                        clock)])
               else s.ledger
  {
    hide WholeTick, RestartDue;
    ReachesAnnouncement(s, now, cfg, configured, replies, clock);
  }

  /** A due restart at most ten minutes late is called, its attempt recorded before and its
      failure after; a later one is discarded and recorded as skipped. Either way nothing is
      left pending. */
  lemma DueIsFiredOrDiscarded(s: State, now: int, cfg: Config, configured: bool, replies: Pc -> bool, clock: int)
    requires s.ledger.pending.Some? && s.ledger.pending.value.at <= now
    ensures var after, x := WholeTick(s, now, cfg, configured, replies, clock), s.ledger.pending.value;
            && after.ledger.pending.None? && after.ledger.warnAt.None? && after.ledger.warnFreq.None?
            && after.arms == s.arms && after.armedSlots == s.armedSlots
            && if now <= x.at + 600 then
                 && after.calls == s.calls + [Call(x, now)]
                 && after.ledger.runs == s.ledger.runs + [Row(Restart, Ok, clock)]
                                         + if replies(CallPanel(now, x)) then [] else [Row(Restart, Error, clock)]
               else after.calls == s.calls && after.ledger.runs == s.ledger.runs + [Row(Restart, Skipped, clock)]
  {
    FireFinishes(s.(pc := ClearPending(now, s.ledger.pending.value)), replies, clock);
    hide Finish;
    var runs := s.ledger.runs + [Row(Restart, Ok, clock)];
    assert runs + [] == runs;
  }

  // ------------------------------------------------------------ arming by hand

  lemma ThreeSteps(s: State, a: Micro, b: Micro, c: Micro)
    ensures RunFrom(s, [a, b, c]) == Do(Do(Do(s, a), b), c)
  {
    hide Do;
    assert [a, b, c][1..] == [b, c] && [b, c][1..] == [c];
    var s2 := Do(Do(s, a), b);
    assert RunFrom(s2, [c]) == RunFrom(Do(s2, c), []);
    assert RunFrom(Do(s, a), [b, c]) == RunFrom(s2, [c]);
  }

  /** Arming by hand sets the restart, its announcement so long before, and the frequency of
      the banners, at least one second; nothing else. */
  lemma ArmByHand(s: State, at: int, window: int, freq: int)
    ensures RunFrom(s, ArmScript(at, window, freq)) ==
            s.(ledger := Ledger(Some(Intent(at, s.arms, None)), Some(if window > 0 then at - window else at),
                                Some(if freq > 1 then freq else 1), s.ledger.runs),
               arms := s.arms + 1)
  {
    hide RunFrom, GoOn, BeginTick;
    ThreeSteps(s, OpSetPending(at), OpSetWarn(at - Max(window, 0)), OpSetSpec(freq));
  }

  /** Cancelling by hand leaves nothing pending, and touches nothing else. */
  lemma CancelByHand(s: State)
    ensures RunFrom(s, CANCEL_SCRIPT) == s.(ledger := Ledger(None, None, None, s.ledger.runs))
  {
    hide RunFrom, GoOn, BeginTick;
    ThreeSteps(s, OpClearPending, OpClearWarn, OpClearSpec);
  }

  /** A restart armed by hand and left alone is quiet until its window, announced by a tick
      inside it, and called by a tick that comes when it is due and at most ten minutes late. */
  lemma ArmedByHandFires(s: State, at: int, window: int, freq: int, quiet: int, warn: int, due: int, cfg: Config,
                         configured: bool, replies: Pc -> bool, clock: int)
    requires window > 0 && quiet < at - window <= warn < at <= due <= at + 600
    ensures var armed := RunFrom(s, ArmScript(at, window, freq));
            var x := Intent(at, s.arms, None);
            var before := WholeTick(armed, quiet, cfg, configured, replies, clock);
            var warned := WholeTick(before, warn, cfg, configured, replies, clock);
            var after := WholeTick(warned, due, cfg, configured, replies, clock);
            && before.ledger == armed.ledger && before.calls == s.calls
            && warned.ledger.warnAt.None? && warned.ledger.pending == Some(x) && warned.calls == s.calls
            && warned.ledger.runs ==
               s.ledger.runs + [Row(RestartWarn, if replies(Broadcast(warn, x)) then Ok else Error, clock)]
            && after.calls == s.calls + [Call(x, due)] && after.ledger.pending.None?
  {
    hide WholeTick, RunFrom;
    ArmByHand(s, at, window, freq);
    var armed := RunFrom(s, ArmScript(at, window, freq));
    var before := WholeTick(armed, quiet, cfg, configured, replies, clock);
    var warned := WholeTick(before, warn, cfg, configured, replies, clock);
    PendingIsAnnounced(armed, quiet, cfg, configured, replies, clock);
    PendingIsAnnounced(before, warn, cfg, configured, replies, clock);
    DueIsFiredOrDiscarded(warned, due, cfg, configured, replies, clock);
  }
}
