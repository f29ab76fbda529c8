/** At-most-once restarts over every interleaving of ticks, crashes and operator commands. */
module ScheduleSafety {
  import opened Arith
  import opened Wrappers
  import opened Schedule

  /** The intent a tick has taken to fire and may still call the panel for. */
  function Held(pc: Pc): Option<Intent> {
    match pc
    case ClearPending(_, due) => Some(due)
    case ClearWarn(_, due) => Some(due)
    case ClearSpec(_, due) => Some(due)
    case Decide(_, due) => Some(due)
    case CallPanel(_, due) => Some(due)
    case _ => None
  }

  function HeldNow(pc: Pc): int {
    match pc
    case ClearPending(now, _) => now
    case ClearWarn(now, _) => now
    case ClearSpec(now, _) => now
    case Decide(now, _) => now
    case CallPanel(now, _) => now
    case _ => 0
  }

  predicate Called(s: State, id: nat) { exists i | 0 <= i < |s.calls| :: s.calls[i].intent.id == id }

  predicate Inv(s: State) {
    && (s.ledger.pending.Some? ==> s.ledger.pending.value.id < s.arms && !Called(s, s.ledger.pending.value.id))
    && (Held(s.pc).Some? ==>
          && Held(s.pc).value.id < s.arms && !Called(s, Held(s.pc).value.id)
          && Held(s.pc).value.at <= HeldNow(s.pc)
          && (s.ledger.pending.Some? && s.ledger.pending.value.id == Held(s.pc).value.id ==>
                s.pc.ClearPending? && s.ledger.pending == Held(s.pc)))
    && (s.pc.CallPanel? ==> s.pc.now - s.pc.due.at <= STALE_RESTART_SECS)
    && CallsSound(s.calls, s.arms)
  }

  /** Every call is for a past arm, on time, and the only one for its arm. */
  predicate CallsSound(calls: seq<Call>, arms: nat) {
    && (forall i | 0 <= i < |calls| :: calls[i].intent.id < arms)
    && (forall i | 0 <= i < |calls| :: calls[i].intent.at <= calls[i].now <= calls[i].intent.at + STALE_RESTART_SECS)
    && (forall i, j | 0 <= i < j < |calls| :: calls[i].intent.id != calls[j].intent.id)
  }

  lemma MoreArmsSound(calls: seq<Call>, arms: nat, more: nat)
    requires CallsSound(calls, arms) && arms <= more
    ensures CallsSound(calls, more)
  {
  }

  lemma SameCalls(s: State, t: State)
    requires s.calls == t.calls
    ensures forall id: nat :: Called(s, id) == Called(t, id)
  {
  }

  lemma CallKeepsInv(s: State, reply: bool, clock: int)
    requires Inv(s) && s.pc.CallPanel?
    ensures Inv(GoOn(s, reply, clock))
  {
    var after := GoOn(s, reply, clock);
    assert after.calls == s.calls + [Call(s.pc.due, s.pc.now)];
    assert after.calls[..|s.calls|] == s.calls;
    forall i | 0 <= i < |s.calls| ensures s.calls[i].intent.id != s.pc.due.id {
      assert !Called(s, s.pc.due.id);
    }
  }

  lemma QuietGoKeepsInv(s: State, reply: bool, clock: int)
    requires Inv(s) && !s.pc.CallPanel?
    ensures Inv(GoOn(s, reply, clock))
  {
    hide CallsSound, Called;
    var after := GoOn(s, reply, clock);
    SameCalls(after, s);
    MoreArmsSound(s.calls, s.arms, s.arms + 1);
    if s.pc.SetPending? { FreshIdUncalled(s); }
  }

  lemma FreshIdUncalled(s: State)
    requires CallsSound(s.calls, s.arms)
    ensures !Called(s, s.arms)
  {}

  lemma OtherKeepsInv(s: State, m: Micro)
    requires Inv(s) && !m.Go?
    ensures Inv(Do(s, m))
  {
    hide CallsSound, Called;
    var after := Do(s, m);
    SameCalls(after, s);
    MoreArmsSound(s.calls, s.arms, s.arms + 1);
    FreshIdUncalled(s);
  }

  lemma DoKeepsInv(s: State, m: Micro)
    requires Inv(s)
    ensures Inv(Do(s, m))
  {
    if !m.Go? {
      OtherKeepsInv(s, m);
    } else if s.pc.CallPanel? {
      CallKeepsInv(s, m.reply, m.clock);
    } else {
      QuietGoKeepsInv(s, m.reply, m.clock);
    }
  }

  lemma {:induction false} RunKeepsInv(s: State, ms: seq<Micro>)
    requires Inv(s)
    ensures Inv(RunFrom(s, ms))
    decreases ms
  {
    if ms != [] {
      DoKeepsInv(s, ms[0]);
      RunKeepsInv(Do(s, ms[0]), ms[1..]);
    }
  }

  lemma {:induction false} DistinctIdsBounded(calls: seq<Call>, n: nat)
    requires forall i | 0 <= i < |calls| :: calls[i].intent.id < n
    requires forall i, j | 0 <= i < j < |calls| :: calls[i].intent.id != calls[j].intent.id
    ensures |calls| <= n
    decreases n
  {
    assert calls != [] ==> calls[0].intent.id < n;
    if n > 0 {
      if k :| 0 <= k < |calls| && calls[k].intent.id == n - 1 {
        var rest := calls[..k] + calls[k + 1..];
        forall i | 0 <= i < |rest| ensures rest[i].intent.id < n - 1 {
          assert rest[i] == calls[if i < k then i else i + 1];
        }
        forall i, j | 0 <= i < j < |rest| ensures rest[i].intent.id != rest[j].intent.id {
          assert rest[i] == calls[if i < k then i else i + 1] && rest[j] == calls[if j < k then j else j + 1];
        }
        DistinctIdsBounded(rest, n - 1);
      } else {
        DistinctIdsBounded(calls, n - 1);
      }
    }
  }

  /** Over every run with crashes anywhere: each armed intent is called at most
      once, so the calls never outnumber the arms, and each call is made neither
      before its armed time nor past the staleness bound. */
  lemma AtMostOneCallPerArm(ms: seq<Micro>)
    ensures var s := RunFrom(START, ms);
            && |s.calls| <= s.arms
            && (forall i, j | 0 <= i < j < |s.calls| :: s.calls[i].intent.id != s.calls[j].intent.id)
            && (forall i | 0 <= i < |s.calls| ::
                  s.calls[i].intent.at <= s.calls[i].now <= s.calls[i].intent.at + STALE_RESTART_SECS)
  {
    RunKeepsInv(START, ms);
    DistinctIdsBounded(RunFrom(START, ms).calls, RunFrom(START, ms).arms);
  }

  // --------------------------------------------------- gone means gone

  /** An intent that is neither pending nor held by a tick. */
  predicate Gone(s: State, id: nat) {
    && id < s.arms
    && (s.ledger.pending.Some? ==> s.ledger.pending.value.id != id)
    && (Held(s.pc).Some? ==> Held(s.pc).value.id != id)
  }

  function CallsOf(s: State, id: nat): set<int> { set i | 0 <= i < |s.calls| && s.calls[i].intent.id == id }

  lemma {:induction false} GoneStaysGone(s: State, ms: seq<Micro>, id: nat)
    requires Gone(s, id)
    ensures Gone(RunFrom(s, ms), id) && CallsOf(RunFrom(s, ms), id) == CallsOf(s, id)
    decreases ms
  {
    if ms != [] {
      var next := Do(s, ms[0]);
      if next.calls != s.calls {
        assert next.calls == s.calls + [Call(s.pc.due, s.pc.now)];
      }
      assert CallsOf(next, id) == CallsOf(s, id);
      GoneStaysGone(next, ms[1..], id);
    }
  }

  /** The panel call and the discard of a stale intent both leave it gone, and it
      never fires again, whatever happens next. */
  lemma FiredOrDiscardedNeverFires(s: State, reply: bool, clock: int, ms: seq<Micro>)
    requires Inv(s)
    requires s.pc.CallPanel? || (s.pc.Decide? && s.pc.now - s.pc.due.at > STALE_RESTART_SECS)
    ensures var id := s.pc.due.id; var after := Do(s, Go(reply, clock));
            && Gone(after, id) && CallsOf(RunFrom(after, ms), id) == CallsOf(after, id)
            && (s.pc.Decide? ==> !Called(RunFrom(after, ms), id))
  {
    var id := s.pc.due.id;
    var after := Do(s, Go(reply, clock));
    GoneStaysGone(after, ms, id);
    NoCallsUncalled(after, id);
    NoCallsUncalled(RunFrom(after, ms), id);
  }

  /** A crash after the intent was consumed loses it for good: at most once, never twice. */
  lemma CrashLosesIntent(s: State, ms: seq<Micro>)
    requires Inv(s) && Held(s.pc).Some? && !s.pc.ClearPending?
    ensures var id := Held(s.pc).value.id; !Called(RunFrom(Do(s, Crash), ms), id)
  {
    var id := Held(s.pc).value.id;
    var after := Do(s, Crash);
    GoneStaysGone(after, ms, id);
    NoCallsUncalled(after, id);
    NoCallsUncalled(RunFrom(after, ms), id);
  }

  lemma NoCallsUncalled(s: State, id: nat)
    ensures CallsOf(s, id) == {} <==> !Called(s, id)
  {
    if Called(s, id) {
      var i :| 0 <= i < |s.calls| && s.calls[i].intent.id == id;
      assert i in CallsOf(s, id);
    }
  }

  // ------------------------------------------------------------- cancelling

  /** The tick has already read this intent and will still call the panel for it. */
  predicate WillFire(s: State, id: nat) {
    Held(s.pc).Some? && Held(s.pc).value.id == id && HeldNow(s.pc) - Held(s.pc).value.at <= STALE_RESTART_SECS
  }

  /** The steps the daemon needs from here to the call. */
  function ToCall(pc: Pc): nat {
    match pc
    case ClearPending(_, _) => 5
    case ClearWarn(_, _) => 4
    case ClearSpec(_, _) => 3
    case Decide(_, _) => 2
    case CallPanel(_, _) => 1
    case _ => 0
  }

  function Undisturbed(n: nat): seq<Micro> { seq(n, _ => Go(true, 0)) }

  lemma {:induction false} HeldGetsCalled(s: State, id: nat)
    requires WillFire(s, id)
    ensures Called(RunFrom(s, Undisturbed(ToCall(s.pc))), id)
    decreases ToCall(s.pc)
  {
    var n := ToCall(s.pc);
    var next := Do(s, Go(true, 0));
    assert Undisturbed(n)[0] == Go(true, 0) && Undisturbed(n)[1..] == Undisturbed(n - 1);
    if s.pc.CallPanel? {
      assert next.calls[|s.calls|].intent.id == id;
      assert RunFrom(next, Undisturbed(0)) == next;
    } else {
      HeldGetsCalled(next, id);
    }
  }

  lemma {:induction false} UnheldNeverCalled(s: State, ms: seq<Micro>, id: nat)
    requires Inv(s) && id < s.arms && !Called(s, id)
    requires s.ledger.pending.Some? ==> s.ledger.pending.value.id != id
    requires !WillFire(s, id)
    ensures !Called(RunFrom(s, ms), id)
    decreases ms
  {
    hide Do, Inv, Called, WillFire;
    if ms != [] {
      DoKeepsInv(s, ms[0]);
      StepStaysUncalled(s, ms[0], id);
      UnheldNeverCalled(Do(s, ms[0]), ms[1..], id);
    }
  }

  lemma StepStaysUncalled(s: State, m: Micro, id: nat)
    requires Inv(s) && id < s.arms && !Called(s, id) && !WillFire(s, id)
    requires s.ledger.pending.Some? ==> s.ledger.pending.value.id != id
    ensures var next := Do(s, m);
            && id < next.arms && !Called(next, id) && !WillFire(next, id)
            && (next.ledger.pending.Some? ==> next.ledger.pending.value.id != id)
  {
    hide CallsSound;
    var next := Do(s, m);
    if next.calls != s.calls {
      assert next.calls == s.calls + [Call(s.pc.due, s.pc.now)];
    } else {
      SameCalls(next, s);
    }
  }

  ghost predicate CanStillFire(s: State, id: nat) { exists ms :: Called(RunFrom(s, ms), id) }

  /** A cancelled restart can still fire exactly when the cancel landed after a
      tick had read it and found it fit to fire: the window between the daemon's
      read and its own first write. */
  lemma CancelledFiresIff(s: State)
    requires Inv(s) && s.ledger.pending.Some?
    ensures var id := s.ledger.pending.value.id; var cancelled := Do(s, OpClearPending);
            CanStillFire(cancelled, id) <==>
              s.pc.ClearPending? && s.pc.due.id == id && s.pc.now - s.pc.due.at <= STALE_RESTART_SECS
  {
    var id := s.ledger.pending.value.id;
    var cancelled := Do(s, OpClearPending);
    DoKeepsInv(s, OpClearPending);
    if WillFire(cancelled, id) {
      HeldGetsCalled(cancelled, id);
      assert Called(RunFrom(cancelled, Undisturbed(ToCall(cancelled.pc))), id);
      assert s.pc.ClearPending?;
    } else {
      forall ms ensures !Called(RunFrom(cancelled, ms), id) {
        UnheldNeverCalled(cancelled, ms, id);
      }
    }
  }

  /** The race, concretely: armed for 100, read by the tick of second 100, cancelled, fired. */
  lemma CancelRace()
    ensures var off := Config(false, None, {}, 0, 0, 0);
            var ms := [OpSetPending(100), Begin(100, off, true)] + CANCEL_SCRIPT + Undisturbed(5);
            RunFrom(START, ms).calls == [Call(Intent(100, 0, None), 100)]
  {
    var off := Config(false, None, {}, 0, 0, 0);
    var x := Intent(100, 0, None);
    var s2 := State(Ledger(Some(x), None, None, []), ClearPending(100, x), 1, [], []);
    var s3 := State(Ledger(None, None, None, []), ClearPending(100, x), 1, [], []);
    var head := [OpSetPending(100), Begin(100, off, true)];
    RunConcat(START, head, CANCEL_SCRIPT);
    RunConcat(START, head + CANCEL_SCRIPT, Undisturbed(5));
    assert RunFrom(START, head) == s2 by { TwoSteps(START, OpSetPending(100), Begin(100, off, true)); }
    assert RunFrom(s2, CANCEL_SCRIPT) == s3 by {
      TwoSteps(s2, OpClearPending, OpClearWarn);
      RunConcat(s2, [OpClearPending, OpClearWarn], [OpClearSpec]);
      assert CANCEL_SCRIPT == [OpClearPending, OpClearWarn] + [OpClearSpec];
      OneStep(s3, OpClearSpec);
    }
    FireRuns(s3);
  }

  lemma {:induction false} RunConcat(s: State, a: seq<Micro>, b: seq<Micro>)
    ensures RunFrom(s, a + b) == RunFrom(RunFrom(s, a), b)
    decreases a
  {
    if a == [] {
      assert a + b == b;
    } else {
      assert (a + b)[1..] == a[1..] + b;
      RunConcat(Do(s, a[0]), a[1..], b);
    }
  }

  lemma OneStep(s: State, m: Micro)
    ensures RunFrom(s, [m]) == Do(s, m)
  {
    assert [m][1..] == [];
  }

  lemma TwoSteps(s: State, m: Micro, n: Micro)
    ensures RunFrom(s, [m, n]) == Do(Do(s, m), n)
  {
    assert [m, n][1..] == [n];
    OneStep(Do(s, m), n);
  }

  lemma ThreeSteps(s: State, m: Micro, n: Micro, o: Micro)
    ensures RunFrom(s, [m, n, o]) == Do(Do(Do(s, m), n), o)
  {
    assert [m, n, o][1..] == [n, o];
    TwoSteps(Do(s, m), n, o);
  }

  lemma FireRuns(s: State)
    requires s.pc.ClearPending? && s.pc.now - s.pc.due.at <= STALE_RESTART_SECS
    ensures RunFrom(s, Undisturbed(5)).calls == s.calls + [Call(s.pc.due, s.pc.now)]
  {
    var go := Go(true, 0);
    var s2 := Do(Do(s, go), go);
    var s4 := Do(Do(s2, go), go);
    TwoSteps(s, go, go);
    TwoSteps(s2, go, go);
    OneStep(s4, go);
    RunConcat(s, [go, go], [go, go]);
    RunConcat(s, [go, go] + [go, go], [go]);
    assert Undisturbed(5) == [go, go] + [go, go] + [go];
  }

  // ------------------------------------------------------- what a tick achieves

  /** Left alone, a tick that finds a due and fresh intent calls the panel for it,
      once, with the ledger already cleared. */
  lemma DueIntentIsCalled(s: State, now: int, cfg: Config, configured: bool, replies: Pc -> bool, clock: int)
    requires s.ledger.pending.Some?
    requires s.ledger.pending.value.at <= now <= s.ledger.pending.value.at + STALE_RESTART_SECS
    ensures var after := WholeTick(s, now, cfg, configured, replies, clock);
            && after.calls == s.calls + [Call(s.ledger.pending.value, now)]
            && after.ledger.pending.None? && after.ledger.warnAt.None? && after.ledger.warnFreq.None?
            && after.pc == Idle
  {
    FireFinishes(s.(pc := ClearPending(now, s.ledger.pending.value)), replies, clock);
  }

  function Cleared(l: Ledger): Ledger { Ledger(None, None, None, l.runs) }

  /** The firing path as a whole. */
  lemma FireFinishes(s: State, replies: Pc -> bool, clock: int)
    requires s.pc.ClearPending?
    ensures Finish(s, replies, clock) ==
            if s.pc.now - s.pc.due.at > STALE_RESTART_SECS then
              s.(ledger := Record(Cleared(s.ledger), Row(Restart, Skipped, clock)), pc := Idle)
            else
              var tried := Record(Cleared(s.ledger), Row(Restart, Ok, clock));
              s.(ledger := if replies(CallPanel(s.pc.now, s.pc.due)) then tried else Record(tried,
                  Row(Restart, Error, clock)),
                 calls := s.calls + [Call(s.pc.due, s.pc.now)], pc := Idle)
  {
    var s1 := GoOn(s, replies(s.pc), clock);
    var s2 := GoOn(s1, replies(s1.pc), clock);
    var s3 := GoOn(s2, replies(s2.pc), clock);
    assert s3 == s.(ledger := Cleared(s.ledger), pc := Decide(s.pc.now, s.pc.due));
    var s4 := GoOn(s3, replies(s3.pc), clock);
    var s5 := GoOn(s4, replies(s4.pc), clock);
    var s6 := GoOn(s5, replies(s5.pc), clock);
    assert Finish(s, replies, clock) == Finish(s2, replies, clock);
    assert Finish(s2, replies, clock) == Finish(s4, replies, clock);
    assert s6.pc == Idle;
    assert Finish(s4, replies, clock) == Finish(s6, replies, clock);
  }

  /** The arming path up to the announcement. */
  lemma ArmFinishes(s: State, replies: Pc -> bool, clock: int)
    requires s.pc.SetPending?
    ensures Finish(s, replies, clock) == Finish(Armed(s, s.pc.now, s.pc.cfg), replies, clock)
  {
    hide GoOn, Armed;
    var s1 := GoOn(s, replies(s.pc), clock);
    var s2 := GoOn(s1, replies(s1.pc), clock);
    ArmingWrites(s, replies(s.pc), replies(s1.pc), replies(s2.pc), clock);
    assert Finish(s, replies, clock) == Finish(s1, replies, clock);
    assert Finish(s1, replies, clock) == Finish(s2, replies, clock);
  }

  lemma ArmingWrites(s: State, a: bool, b: bool, c: bool, clock: int)
    requires s.pc.SetPending?
    ensures GoOn(s, a, clock).pc.SetWarn? && GoOn(GoOn(s, a, clock), b, clock).pc.SetSpec?
    ensures GoOn(GoOn(GoOn(s, a, clock), b, clock), c, clock) == Armed(s, s.pc.now, s.pc.cfg)
  {
    assert s.armedSlots + [] == s.armedSlots;
  }

  function Armed(s: State, now: int, cfg: Config): State {
    var lead := Max(cfg.warnLead, 0);
    var armed := Intent(now + lead, s.arms, SlotToday(cfg, now));
    s.(ledger := Ledger(Some(armed), Some(armed.at - lead), Some(Max(cfg.warnFreq, 1)), s.ledger.runs),
       pc := ReadWarn(now, Some(armed)), arms := s.arms + 1,
       armedSlots := s.armedSlots + if armed.slot.Some? then [armed.slot.value] else [])
  }

  lemma NoteFinishes(s: State, replies: Pc -> bool, clock: int)
    requires s.pc.NoteUnconfigured?
    ensures Finish(s, replies, clock)
         == Finish(s.(ledger := Record(s.ledger, Row(RestartWarn, Skipped, clock)), pc := ReadWarn(s.pc.now, None)),
                   replies, clock)
  {}

  /** The look at the schedule. */
  lemma SlotFinishes(s: State, replies: Pc -> bool, clock: int)
    requires s.pc.ReadSlot?
    ensures Finish(s, replies, clock) == Finish(GoOn(s, replies(s.pc), clock), replies, clock)
  {}

  /** Where a tick that fires nothing stands before it looks at the announcement. */
  function ReadyToAnnounce(s: State, now: int, cfg: Config, configured: bool, clock: int): State {
    if s.ledger.pending.None? && RestartDue(cfg, now, LastWarn(s.ledger.runs)) then
      if configured then Armed(s, now, cfg)
      else s.(ledger := Record(s.ledger, Row(RestartWarn, Skipped, clock)), pc := ReadWarn(now, None))
    else s.(pc := ReadWarn(now, s.ledger.pending))
  }

  /** Left alone, a tick that fires nothing arms the slot when it is due and announces what
      is pending once its window is open. */
  lemma ReachesAnnouncement(s: State, now: int, cfg: Config, configured: bool, replies: Pc -> bool, clock: int)
    requires s.ledger.pending.Some? ==> now < s.ledger.pending.value.at
    ensures WholeTick(s, now, cfg, configured, replies, clock) ==
            Finish(ReadyToAnnounce(s, now, cfg, configured, clock), replies, clock)
    ensures WholeTick(s, now, cfg, configured, replies, clock) ==
            Announcing(ReadyToAnnounce(s, now, cfg, configured, clock), replies, clock)
  {
    if s.ledger.pending.None? { SlotFinishes(s.(pc := ReadSlot(now, cfg, configured)), replies, clock); }
    if s.ledger.pending.None? && RestartDue(cfg, now, LastWarn(s.ledger.runs)) {
      if configured {
        ArmFinishes(s.(pc := SetPending(now, cfg)), replies, clock);
      } else {
        NoteFinishes(s.(pc := NoteUnconfigured(now)), replies, clock);
      }
    }
    WarnFinishes(ReadyToAnnounce(s, now, cfg, configured, clock), replies, clock);
  }

  /** So a slot that comes due is armed and announced by one and the same tick: the restart
      is pending for the end of the lead, and the row that marks the slot is there. */
  lemma DueSlotIsArmedAndAnnounced(s: State, now: int, cfg: Config, replies: Pc -> bool, clock: int)
    requires s.ledger.pending.None? && RestartDue(cfg, now, LastWarn(s.ledger.runs))
    ensures var after, x := WholeTick(s, now, cfg, true, replies, clock),
            Intent(now + Max(cfg.warnLead, 0), s.arms, SlotToday(cfg, now));
            && after.ledger.pending == Some(x) && after.ledger.warnAt.None? && after.calls == s.calls
            && after.pc == Idle
            && after.ledger.runs == s.ledger.runs + [Row(RestartWarn,
                                                         if replies(Broadcast(now, x)) then Ok else Error, clock)]
            && after.armedSlots == s.armedSlots + [x.slot.value] && LastWarn(after.ledger.runs) == Some(clock)
  {
    hide WholeTick, RestartDue;
    SlotIsKnown(cfg, now, LastWarn(s.ledger.runs));
    ReachesAnnouncement(s, now, cfg, true, replies, clock);
    LastWarnAppend(s.ledger.runs, Row(RestartWarn, if replies(Broadcast(now, Armed(s, now, cfg).pc.pend.value))
                                      then Ok else Error, clock));
  }

  lemma SlotIsKnown(cfg: Config, now: int, lastWarn: Option<int>)
    requires RestartDue(cfg, now, lastWarn)
    ensures SlotToday(cfg, now).Some?
  {
  }

  /** The announcement of a pending restart whose window is open, and its row. */
  function Announcing(s: State, replies: Pc -> bool, clock: int): State
    requires s.pc.ReadWarn?
  {
    if s.pc.pend.Some? && s.ledger.warnAt.Some? && s.pc.now >= s.ledger.warnAt.value then
      var ok := replies(Broadcast(s.pc.now, s.pc.pend.value));
      s.(ledger := Record(s.ledger.(warnAt := None), Row(RestartWarn, if ok then Ok else Error, clock)), pc := Idle)
    else s.(pc := Idle)
  }

  /** The announcing path. */
  lemma WarnFinishes(s: State, replies: Pc -> bool, clock: int)
    requires s.pc.ReadWarn?
    ensures Finish(s, replies, clock) == Announcing(s, replies, clock)
  {
    hide GoOn, Announcing, Finish;
    var s1, end := GoOn(s, replies(s.pc), clock), Announcing(s, replies, clock);
    AnnouncingWrites(s, replies, clock);
    FinishStep(s, replies, clock);
    FinishStep(end, replies, clock);
    if s1.pc.Broadcast? {
      var s2 := GoOn(s1, replies(s1.pc), clock);
      var s3 := GoOn(s2, replies(s2.pc), clock);
      FinishStep(s1, replies, clock);
      FinishStep(s2, replies, clock);
      FinishStep(s3, replies, clock);
    }
  }

  lemma FinishStep(s: State, replies: Pc -> bool, clock: int)
    ensures Finish(s, replies, clock) ==
            if s.pc == Idle then s else Finish(GoOn(s, replies(s.pc), clock), replies, clock)
  {
    hide GoOn;
  }

  lemma AnnouncingWrites(s: State, replies: Pc -> bool, clock: int)
    requires s.pc.ReadWarn?
    ensures var s1 := GoOn(s, replies(s.pc), clock); var s2 := GoOn(s1, replies(s1.pc), clock);
            var s3 := GoOn(s2, replies(s2.pc), clock); var end := Announcing(s, replies, clock);
            && end.pc == Idle && (s1.pc.Broadcast? || s1 == end)
            && (s1.pc.Broadcast? ==> s2.pc.DropWarn? && s3.pc.NoteWarn? && GoOn(s3, replies(s3.pc), clock) == end)
  {
  }

  // ------------------------------------------------------------ one per slot

  /** The slot of the intent a tick has armed, or found armed, and may still announce. */
  function Shown(pc: Pc): Option<int> {
    match pc
    case SetWarn(_, armed, _) => armed.slot
    case SetSpec(_, armed, _) => armed.slot
    case ReadWarn(_, pend) => if pend.Some? then pend.value.slot else None
    case Broadcast(_, shown) => shown.slot
    case DropWarn(_, shown, _) => shown.slot
    case NoteWarn(_, shown, _) => shown.slot
    case _ => None
  }

  predicate Arming(pc: Pc, slot: int) { Shown(pc) == Some(slot) }

  function PcNow(pc: Pc): Option<int> {
    match pc
    case Idle => None
    case NoteFailure => None
    case ClearPending(now, _) => Some(now)
    case ClearWarn(now, _) => Some(now)
    case ClearSpec(now, _) => Some(now)
    case Decide(now, _) => Some(now)
    case CallPanel(now, _) => Some(now)
    case NoteUnconfigured(now) => Some(now)
    case ReadSlot(now, _, _) => Some(now)
    case SetPending(now, _) => Some(now)
    case SetWarn(now, _, _) => Some(now)
    case SetSpec(now, _, _) => Some(now)
    case ReadWarn(now, _) => Some(now)
    case Broadcast(now, _) => Some(now)
    case DropWarn(now, _, _) => Some(now)
    case NoteWarn(now, _, _) => Some(now)
  }

  /** A row is stamped with a clock that never runs behind the announcement already recorded. */
  predicate Clocked(s: State, m: Micro) {
    LastWarn(s.ledger.runs).Some? ==>
      && (m.Go? ==> m.clock >= LastWarn(s.ledger.runs).value)
      && (m.OpRecord? ==> m.row.at >= LastWarn(s.ledger.runs).value)
  }

  predicate ClockedRun(s: State, ms: seq<Micro>)
    decreases ms
  {
    ms == [] || (Clocked(s, ms[0]) && ClockedRun(Do(s, ms[0]), ms[1..]))
  }

  predicate Announced(s: State, slot: int) {
    LastWarn(s.ledger.runs).Some? && LastWarn(s.ledger.runs).value >= slot
  }

  /** The steps of a run stamp rows with a clock that runs behind neither the last
      announcement nor their own tick; and nothing but the tick itself moves while it
      has armed a slot whose announcement is not recorded yet. */
  predicate Orderly(s: State, m: Micro) {
    && Clocked(s, m)
    && (m.Go? && PcNow(s.pc).Some? ==> m.clock >= PcNow(s.pc).value)
    && (Shown(s.pc).Some? && !Announced(s, Shown(s.pc).value) ==> m.Go?)
  }

  predicate OrderlyRun(s: State, ms: seq<Micro>)
    decreases ms
  {
    ms == [] || (Orderly(s, ms[0]) && OrderlyRun(Do(s, ms[0]), ms[1..]))
  }

  predicate SlotInv(s: State) {
    && (forall i | 0 <= i < |s.armedSlots| :: Announced(s, s.armedSlots[i]) || Arming(s.pc, s.armedSlots[i]))
    && (forall i, j | 0 <= i < j < |s.armedSlots| :: s.armedSlots[i] != s.armedSlots[j])
    && (s.pc.SetPending? ==>
          SlotFree(s, SlotToday(s.pc.cfg, s.pc.now)) && SlotToday(s.pc.cfg, s.pc.now).value <= s.pc.now)
    && (s.pc.SetWarn? ==> s.pc.armed.at == s.pc.now + Max(s.pc.cfg.warnLead, 0) && SlotPast(s.pc.armed, s.pc.now))
    && (s.pc.SetSpec? ==> SlotPast(s.pc.armed, s.pc.now) && WarnStands(s, s.pc.armed, s.pc.now))
    && (s.pc.ReadWarn? && s.pc.pend.Some? ==>
          WarnStands(s, s.pc.pend.value, s.pc.now) && AnnouncedOrPast(s, s.pc.pend.value, s.pc.now))
    && (s.pc.Broadcast? ==> AnnouncedOrPast(s, s.pc.shown, s.pc.now))
    && (s.pc.DropWarn? ==> AnnouncedOrPast(s, s.pc.shown, s.pc.now))
    && (s.pc.NoteWarn? ==> AnnouncedOrPast(s, s.pc.shown, s.pc.now))
  }

  predicate SlotFree(s: State, slot: Option<int>) { slot.Some? && slot.value !in s.armedSlots }

  predicate SlotPast(x: Intent, now: int) { x.slot.Some? ==> x.slot.value <= now }

  /** The tick that armed the slot of x finds the announcement due. */
  predicate WarnStands(s: State, x: Intent, now: int) {
    x.slot.Some? && x.slot.value in s.armedSlots && !Announced(s, x.slot.value) ==> s.ledger.warnAt == Some(now)
  }

  predicate AnnouncedOrPast(s: State, x: Intent, now: int) {
    x.slot.Some? && x.slot.value in s.armedSlots ==> Announced(s, x.slot.value) || SlotPast(x, now)
  }

  lemma LastWarnAppend(runs: seq<Row>, row: Row)
    ensures LastWarn(runs + [row]) == if row.task == RestartWarn then Some(row.at) else LastWarn(runs)
  {
    assert (runs + [row])[..|runs|] == runs;
  }

  lemma SlotArmed(s: State, clock: int)
    requires SlotInv(s) && s.pc.SetPending?
    ensures SlotInv(GoOn(s, true, clock)) && SlotInv(GoOn(s, false, clock))
  {
    var after := GoOn(s, true, clock);
    var slot := SlotToday(s.pc.cfg, s.pc.now).value;
    assert after.armedSlots == s.armedSlots + [slot];
    forall i | 0 <= i < |s.armedSlots| ensures Announced(s, s.armedSlots[i]) && s.armedSlots[i] != slot {}
    forall i | 0 <= i < |after.armedSlots| ensures Announced(after, after.armedSlots[i])
      || Arming(after.pc, after.armedSlots[i]) {
      if i < |s.armedSlots| { assert after.armedSlots[i] == s.armedSlots[i]; }
    }
    assert GoOn(s, false, clock) == after;
  }

  /** Steps that end a tick or fire: they leave the announcement where it is or move it on. */
  lemma SlotUnarmedStep(s: State, m: Micro)
    requires SlotInv(s) && Orderly(s, m) && m.Go?
    requires s.pc == Idle || s.pc.ClearPending? || s.pc.ClearWarn? || s.pc.ClearSpec? || s.pc.Decide?
             || s.pc.CallPanel? || s.pc.NoteFailure? || s.pc.NoteUnconfigured? || s.pc.ReadSlot?
    ensures SlotInv(Do(s, m))
  {
    var after := Do(s, m);
    forall i | 0 <= i < |s.armedSlots| ensures Announced(after, s.armedSlots[i]) {
      assert Announced(s, s.armedSlots[i]);
      if after.ledger.runs != s.ledger.runs {
        var row := after.ledger.runs[|s.ledger.runs|];
        assert after.ledger.runs == s.ledger.runs + [row];
        LastWarnAppend(s.ledger.runs, row);
      }
    }
  }

  lemma SlotArmingStep(s: State, m: Micro)
    requires SlotInv(s) && Orderly(s, m) && m.Go?
    requires s.pc.SetWarn? || s.pc.SetSpec? || s.pc.ReadWarn? || s.pc.Broadcast? || s.pc.DropWarn?
    ensures SlotInv(Do(s, m))
  {
    var after := Do(s, m);
    assert after.ledger.runs == s.ledger.runs && after.armedSlots == s.armedSlots;
    forall i | 0 <= i < |s.armedSlots| ensures Announced(after, s.armedSlots[i]) || Arming(after.pc, s.armedSlots[i]) {
      assert Announced(s, s.armedSlots[i]) || Arming(s.pc, s.armedSlots[i]);
    }
  }

  lemma SlotNoted(s: State, m: Micro)
    requires SlotInv(s) && Orderly(s, m) && m.Go? && s.pc.NoteWarn?
    ensures SlotInv(Do(s, m))
  {
    var after := Do(s, m);
    LastWarnAppend(s.ledger.runs, Row(RestartWarn, if s.pc.ok then Ok else Error, m.clock));
    forall i | 0 <= i < |s.armedSlots| ensures Announced(after, s.armedSlots[i]) {
      assert Announced(s, s.armedSlots[i]) || Arming(s.pc, s.armedSlots[i]);
    }
  }

  lemma SlotOtherStep(s: State, m: Micro)
    requires SlotInv(s) && Orderly(s, m) && !m.Go?
    ensures SlotInv(Do(s, m))
  {
    var after := Do(s, m);
    if m.OpRecord? { LastWarnAppend(s.ledger.runs, m.row); }
    forall i | 0 <= i < |s.armedSlots| ensures Announced(after, s.armedSlots[i]) {
      assert Announced(s, s.armedSlots[i]) || Arming(s.pc, s.armedSlots[i]);
    }
  }

  lemma DoKeepsSlotInv(s: State, m: Micro)
    requires SlotInv(s) && Orderly(s, m)
    ensures SlotInv(Do(s, m))
  {
    if !m.Go? {
      SlotOtherStep(s, m);
    } else if s.pc.SetPending? {
      SlotArmed(s, m.clock);
    } else if s.pc.NoteWarn? {
      SlotNoted(s, m);
    } else if s.pc.SetWarn? || s.pc.SetSpec? || s.pc.ReadWarn? || s.pc.Broadcast? || s.pc.DropWarn? {
      SlotArmingStep(s, m);
    } else {
      SlotUnarmedStep(s, m);
    }
  }

  lemma {:induction false} SlotArmsOnce(s: State, ms: seq<Micro>)
    requires SlotInv(s) && OrderlyRun(s, ms)
    ensures SlotInv(RunFrom(s, ms))
    decreases ms
  {
    if ms != [] {
      DoKeepsSlotInv(s, ms[0]);
      SlotArmsOnce(Do(s, ms[0]), ms[1..]);
    }
  }

  /** No slot is armed twice by a run in which nothing but the arming tick moves until
      the announcement is recorded, and the clock does not run back. */
  lemma OneArmPerSlot(ms: seq<Micro>)
    requires OrderlyRun(START, ms)
    ensures var s := RunFrom(START, ms); forall i, j | 0 <= i < j < |s.armedSlots| :: s.armedSlots[i] != s.armedSlots[j]
  {
    SlotArmsOnce(START, ms);
  }

  // ------------------------------------------------- when a slot is armed again

  /** The slot is armed between the two states. */
  predicate ArmedSince(s: State, t: State, slot: int) {
    exists i | |s.armedSlots| <= i < |t.armedSlots| :: t.armedSlots[i] == slot
  }

  /** A tick already decided to arm the slot. */
  predicate SetToArm(pc: Pc, slot: int) { pc.SetPending? && SlotToday(pc.cfg, pc.now) == Some(slot) }

  ghost predicate CanArm(s: State, slot: int) {
    exists ms :: ClockedRun(s, ms) && ArmedSince(s, RunFrom(s, ms), slot)
  }

  lemma AnnouncedStays(s: State, m: Micro, slot: int)
    requires Clocked(s, m) && Announced(s, slot)
    ensures Announced(Do(s, m), slot)
  {
    var after := Do(s, m);
    if after.ledger.runs != s.ledger.runs {
      var row := after.ledger.runs[|s.ledger.runs|];
      assert after.ledger.runs == s.ledger.runs + [row];
      LastWarnAppend(s.ledger.runs, row);
    }
  }

  lemma {:induction false} AnnouncedIsNotArmed(s: State, ms: seq<Micro>, slot: int)
    requires ClockedRun(s, ms) && Announced(s, slot) && !SetToArm(s.pc, slot)
    ensures s.armedSlots <= RunFrom(s, ms).armedSlots && !ArmedSince(s, RunFrom(s, ms), slot)
    decreases ms
  {
    hide LastWarn;
    if ms != [] {
      var next := Do(s, ms[0]);
      AnnouncedStays(s, ms[0], slot);
      BeginsUnannounced(s, ms[0], slot);
      AnnouncedIsNotArmed(next, ms[1..], slot);
      assert s.armedSlots <= next.armedSlots && !ArmedSince(s, next, slot);
    }
  }

  lemma BeginsUnannounced(s: State, m: Micro, slot: int)
    requires Announced(s, slot) && !SetToArm(s.pc, slot)
    ensures !SetToArm(Do(s, m).pc, slot)
  {
  }

  /** The clock of a row that runs behind no announcement. */
  function Late(s: State): int { if LastWarn(s.ledger.runs).Some? then LastWarn(s.ledger.runs).value else 0 }

  lemma SetToArmArms(s: State, slot: int)
    requires SetToArm(s.pc, slot)
    ensures CanArm(s, slot)
  {
    var ms := [Go(true, Late(s))];
    OneStep(s, ms[0]);
    assert ms[1..] == [] && RunFrom(s, ms).armedSlots[|s.armedSlots|] == slot;
    assert ClockedRun(Do(s, ms[0]), []) && ClockedRun(s, ms);
  }

  /** What can be armed after a step that arms nothing can be armed before it. */
  lemma CanArmBefore(s: State, m: Micro, slot: int)
    requires Clocked(s, m) && Do(s, m).armedSlots == s.armedSlots && CanArm(Do(s, m), slot)
    ensures CanArm(s, slot)
  {
    var ms :| ClockedRun(Do(s, m), ms) && ArmedSince(Do(s, m), RunFrom(Do(s, m), ms), slot);
    assert ([m] + ms)[1..] == ms;
    assert ClockedRun(s, [m] + ms) && RunFrom(s, [m] + ms) == RunFrom(Do(s, m), ms);
  }

  lemma UnannouncedCanBeArmed(s: State, slot: int)
    requires !Announced(s, slot)
    ensures CanArm(s, slot)
  {
    var cfg := Config(true, Some(slot % DAY_SECS), {}, 0, 0, 1);
    var begin, go := Begin(slot, cfg, true), Go(true, Late(s));
    var s1 := Do(s, Crash);
    var s2 := Do(s1, OpClearPending);
    var s3 := Do(s2, begin);
    assert SlotToday(cfg, slot) == Some(slot);
    assert RestartDue(cfg, slot, LastWarn(s3.ledger.runs));
    SetToArmArms(Do(s3, go), slot);
    hide CanArm, LastWarn, RestartDue, SlotToday;
    CanArmBefore(s3, go, slot);
    CanArmBefore(s2, begin, slot);
    CanArmBefore(s1, OpClearPending, slot);
    CanArmBefore(s, Crash, slot);
  }

  /** A slot, armed before or not, can still be armed exactly when no announcement has
      been recorded at or after it, or a tick has decided to arm it already: it is the
      row of the announcement that marks a slot as used, and nothing else does. */
  lemma CanArmIff(s: State, slot: int)
    ensures CanArm(s, slot) <==> !Announced(s, slot) || SetToArm(s.pc, slot)
  {
    if SetToArm(s.pc, slot) {
      SetToArmArms(s, slot);
    } else if !Announced(s, slot) {
      UnannouncedCanBeArmed(s, slot);
    } else {
      forall ms | ClockedRun(s, ms) ensures !ArmedSince(s, RunFrom(s, ms), slot) { AnnouncedIsNotArmed(s, ms, slot); }
    }
  }

  const MIDNIGHT := Config(true, Some(0), {}, 60, 60, 3600)

  /** A crash right after the first arming write arms the slot of second 0 again:
      the restart fires at second 60 unannounced, so nothing marks the slot as used
      and the tick of second 90 arms it a second time. */
  lemma CrashRearmsSlot()
    ensures exists ms :: RunFrom(START, ms).armedSlots == [0, 0]
  {
    var crashed := [Begin(0, MIDNIGHT, true), Go(true, 0), Go(true, 0)] + [Crash];
    var go := Go(true, 60);
    var fire := [Begin(60, MIDNIGHT, true), go] + [go, go] + [go, go];
    var rearm := [Begin(90, MIDNIGHT, true), Go(true, 90), Go(true, 90)];
    ArmedThenCrashed();
    FiredAtSixty();
    ArmedAgain();
    hide RunFrom;
    RunConcat(START, crashed, fire);
    RunConcat(START, crashed + fire, rearm);
    assert RunFrom(START, crashed + fire + rearm).armedSlots == [0, 0];
  }

  const MIDNIGHT_INTENT := Intent(60, 0, Some(0))

  lemma ArmedThenCrashed()
    ensures RunFrom(START, [Begin(0, MIDNIGHT, true), Go(true, 0), Go(true, 0)] + [Crash]) ==
            State(Ledger(Some(MIDNIGHT_INTENT), None, None, []), Idle, 1, [], [0])
  {
    var begin, go := Begin(0, MIDNIGHT, true), Go(true, 0);
    ThreeSteps(START, begin, go, go);
    RunConcat(START, [begin, go, go], [Crash]);
    OneStep(Do(Do(Do(START, begin), go), go), Crash);
  }

  lemma FiredAtSixty()
    ensures var go, x := Go(true, 60), MIDNIGHT_INTENT;
            RunFrom(State(Ledger(Some(x), None, None, []), Idle, 1, [], [0]),
                    [Begin(60, MIDNIGHT, true), go] + [go, go] + [go, go])
            == State(Ledger(None, None, None, [Row(Restart, Ok, 60)]), Idle, 1, [Call(x, 60)], [0])
  {
    hide RunFrom;
    var go, x := Go(true, 60), MIDNIGHT_INTENT;
    var s1 := State(Ledger(Some(x), None, None, []), Idle, 1, [], [0]);
    RunConcat(s1, [Begin(60, MIDNIGHT, true), go] + [go, go], [go, go]);
    RunConcat(s1, [Begin(60, MIDNIGHT, true), go], [go, go]);
    TwoSteps(s1, Begin(60, MIDNIGHT, true), go);
    TwoSteps(State(Ledger(None, None, None, []), ClearWarn(60, x), 1, [], [0]), go, go);
    TwoSteps(State(Ledger(None, None, None, []), Decide(60, x), 1, [], [0]), go, go);
  }

  lemma ArmedAgain()
    ensures var s2 := State(Ledger(None, None, None, [Row(Restart, Ok, 60)]), Idle, 1, [Call(MIDNIGHT_INTENT, 60)],
                            [0]);
            RunFrom(s2, [Begin(90, MIDNIGHT, true), Go(true, 90), Go(true, 90)]).armedSlots == [0, 0]
  {
    var s2 := State(Ledger(None, None, None, [Row(Restart, Ok, 60)]), Idle, 1, [Call(MIDNIGHT_INTENT, 60)], [0]);
    assert LastWarn([]) == None;
    assert [Row(Restart, Ok, 60)][..0] == [];
    assert LastWarn(s2.ledger.runs) == None;
    ThreeSteps(s2, Begin(90, MIDNIGHT, true), Go(true, 90), Go(true, 90));
  }
}
