/** The scheduler's ledger and the commands that write it, run without
    interruption; each is tied to the machine of single writes. */
module ScheduleLedger {
  import opened Arith
  import opened Wrappers
  import opened Schedule
  import opened ScheduleSafety

  class SchedulerLedger {
    var pending: Option<Intent>
    var warnAt: Option<int>
    var warnFreq: Option<int>
    var runs: seq<Row>
    var arms: nat
    ghost var calls: seq<Call>
    ghost var armedSlots: seq<int>

    ghost function Abs(): State
      reads this
    {
      State(Ledger(pending, warnAt, warnFreq, runs), Idle, arms, calls, armedSlots)
    }

    constructor ()
      ensures Abs() == START
    {
      pending, warnAt, warnFreq, runs, arms := None, None, None, [], 0;
      calls, armedSlots := [], [];
    }

    method Record(task: Task, status: Status, clock: int)
      modifies this`runs
      ensures runs == old(runs) + [Row(task, status, clock)]
    {
      runs := runs + [Row(task, status, clock)];
    }

    method Last(task: Task) returns (at: Option<int>)
      ensures at == LastOf(runs, task)
    {
      at := None;
      for i := 0 to |runs|
        invariant at == LastOf(runs[..i], task)
      {
        assert runs[..i + 1][..i] == runs[..i];
        if runs[i].task == task {
          at := Some(runs[i].at);
        }
      }
      assert runs[..|runs|] == runs;
    }

    /** arm-restart, and the arming step of a tick when `slot` is given. */
    method ArmRestart(at: int, window: int, freq: int, slot: Option<int>)
      modifies this
      ensures pending == Some(Intent(at, old(arms), slot)) && arms == old(arms) + 1
      ensures warnAt == Some(at - Max(window, 0)) && warnFreq == Some(Max(freq, 1))
      ensures runs == old(runs) && calls == old(calls)
      ensures armedSlots == old(armedSlots) + if slot.Some? then [slot.value] else []
      ensures slot.None? ==> Abs() == RunFrom(old(Abs()), ArmScript(at, window, freq))
    {
      ghost var s := Abs();
      pending := Some(Intent(at, arms, slot));
      arms := arms + 1;
      if slot.Some? {
        armedSlots := armedSlots + [slot.value];
      }
      warnAt := Some(at - Max(window, 0));
      warnFreq := Some(Max(freq, 1));
      ThreeSteps(s, OpSetPending(at), OpSetWarn(at - Max(window, 0)), OpSetSpec(freq));
    }

    /** cancel-restart. The announcement has gone out when only its own key is gone. */
    method CancelRestart() returns (announced: bool)
      modifies this
      ensures announced == (old(warnAt).None? && old(pending).Some?)
      ensures Abs() == RunFrom(old(Abs()), CANCEL_SCRIPT)
    {
      ghost var s := Abs();
      announced := warnAt.None? && pending.Some?;
      pending := None;
      warnAt := None;
      warnFreq := None;
      ThreeSteps(s, OpClearPending, OpClearWarn, OpClearSpec);
    }

    /** Consume the intent first, then discard it when stale or call the panel for it. */
    method FirePending(now: int, due: Intent, replies: Pc -> bool, clock: int)
      modifies this
      ensures Abs() == Finish(old(Abs()).(pc := ClearPending(now, due)), replies, clock)
    {
      FireFinishes(Abs().(pc := ClearPending(now, due)), replies, clock);
      pending := None;
      warnAt := None;
      warnFreq := None;
      if now - due.at > STALE_RESTART_SECS {
        Record(Restart, Skipped, clock);
      } else {
        Record(Restart, Ok, clock);
        var ok := replies(CallPanel(now, due));
        calls := calls + [Call(due, now)];
        if !ok {
          Record(Restart, Error, clock);
        }
      }
    }

    /** Publish the countdown once its window is open. */
    method Announce(now: int, pend: Option<Intent>, replies: Pc -> bool, clock: int)
      modifies this
      ensures Abs() == Finish(old(Abs()).(pc := ReadWarn(now, pend)), replies, clock)
    {
      WarnFinishes(Abs().(pc := ReadWarn(now, pend)), replies, clock);
      if pend.Some? && warnAt.Some? && now >= warnAt.value {
        var ok := replies(Broadcast(now, pend.value));
        warnAt := None;
        Record(RestartWarn, if ok then Ok else Error, clock);
      }
    }

    /** Arm the recurring slot when it is due and nothing is pending. */
    method ArmIfDue(now: int, cfg: Config, configured: bool, clock: int) returns (pend: Option<Intent>)
      modifies this
      ensures Abs().(pc := ReadWarn(now, pend)) == ReadyToAnnounce(old(Abs()), now, cfg, configured, clock)
    {
      pend := pending;
      var lastWarn := Last(RestartWarn);
      if pend.None? && RestartDue(cfg, now, lastWarn) {
        if configured {
          pend := Some(Intent(now + Max(cfg.warnLead, 0), arms, SlotToday(cfg, now)));
          ArmRestart(now + Max(cfg.warnLead, 0), cfg.warnLead, cfg.warnFreq, SlotToday(cfg, now));
        } else {
          Record(RestartWarn, Skipped, clock);
        }
      }
    }

    /** The restart part of one tick. */
    method RunTick(now: int, cfg: Config, configured: bool, replies: Pc -> bool, clock: int)
      modifies this
      ensures Abs() == WholeTick(old(Abs()), now, cfg, configured, replies, clock)
    {
      if pending.Some? && now >= pending.value.at {
        FirePending(now, pending.value, replies, clock);
      } else {
        ReachesAnnouncement(Abs(), now, cfg, configured, replies, clock);
        var pend := ArmIfDue(now, cfg, configured, clock);
        Announce(now, pend, replies, clock);
      }
    }
  }
}
