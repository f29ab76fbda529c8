/** What the battlepass operations do when they act: who is paid, when a tick runs, how a
    failed award waits, what a reset and an edit leave. Stated on the tables, the calls and
    the numbers of the engine, not through its own predicates. */
module BattlepassPays {
  import opened Wrappers
  import opened Battlepass
  import opened BattlepassSafety
  import opened BattlepassRuns

  // ------------------------------------------------------------- the manual grant

  predicate PaidFor(db: Db, c: Claim, t: Tier) {
    && c in db.claims && db.claims[c] == Granted
    && c in db.ledger && db.ledger[c].status == Sealed
    && c in db.delivered && db.delivered[c] == t
  }

  /** The only tier of its key is the one a delivery finds. */
  lemma {:induction false} TierIsFound(tiers: seq<Tier>, t: Tier)
    requires DistinctKeys(tiers) && t in tiers
    ensures FindTier(tiers, t.key) == Some(t)
    decreases |tiers|
  {
    var n := |tiers| - 1;
    var i :| 0 <= i < |tiers| && tiers[i] == t;
    if i < n {
      assert tiers[..n][i] == t && tiers[n].key != t.key;
      TierIsFound(tiers[..n], t);
    }
  }

  lemma ObligingGrantPays(pub: Publisher, db: Db, t: Tier, account: Account, now: int)
    requires forall n: nat :: pub(n) == 0
    requires var c := (t.key, account);
             && c in db.claims && db.claims[c] == Earned && c in db.ledger && db.ledger[c].status != Sealed
    ensures var (after, outcome) := DeliverGrant(pub, db, t, account, now);
            PaidFor(after, (t.key, account), t) && outcome == Delivered && after.tiers == db.tiers
  {
    hide GiveItems;
  }

  /** A delivery leaves the rows of every other claim alone. */
  lemma OtherRowsStay(pub: Publisher, db: Db, t: Tier, account: Account, now: int, c: Claim)
    requires c != (t.key, account)
    ensures var after := DeliverGrant(pub, Enqueue(db, (t.key, account)), t, account, now).0;
            && after.tiers == db.tiers
            && (c in after.claims <==> c in db.claims) && (c in db.claims ==> after.claims[c] == db.claims[c])
            && (c in after.ledger <==> c in db.ledger) && (c in db.ledger ==> after.ledger[c] == db.ledger[c])
            && (c in after.delivered <==> c in db.delivered)
                && (c in db.delivered ==> after.delivered[c] == db.delivered[c])
  {
    hide GiveItems;
  }

  lemma {:induction false} PaidStaysForGrant(pub: Publisher, db: Db, order: seq<TierKey>, earned: set<TierKey>,
                                             account: Account, now: int, c: Claim, t: Tier)
    requires PaidFor(db, c, t) && (c.1 == account ==> c.0 !in earned)
    ensures PaidFor(GrantEarned(pub, db, order, earned, account, now), c, t)
    decreases order
  {
    hide DeliverGrant, Enqueue;
    if order != [] {
      var key := order[0];
      var u := FindTier(db.tiers, key);
      FoundTierHasKey(db.tiers, key);
      if key !in earned || u.None? {
        PaidStaysForGrant(pub, db, order[1..], earned - {key}, account, now, c, t);
      } else {
        var after := DeliverGrant(pub, Enqueue(db, (key, account)), u.value, account, now).0;
        OtherRowsStay(pub, db, u.value, account, now, c);
        PaidStaysForGrant(pub, after, order[1..], earned - {key}, account, now, c, t);
      }
    }
  }

  lemma {:induction false} GrantPassPays(pub: Publisher, db: Db, order: seq<TierKey>, earned: set<TierKey>,
                                         account: Account, now: int, t: Tier)
    requires (forall n: nat :: pub(n) == 0) && DistinctKeys(db.tiers) && t in db.tiers
    requires t.key in order && t.key in earned && Owed(db, (t.key, account))
    ensures PaidFor(GrantEarned(pub, db, order, earned, account, now), (t.key, account), t)
    decreases order
  {
    hide DeliverGrant, Enqueue, PaidFor;
    var key, rest := order[0], order[1..];
    var u := FindTier(db.tiers, key);
    FoundTierHasKey(db.tiers, key);
    TierIsFound(db.tiers, t);
    if key !in earned || u.None? {
      GrantPassPays(pub, db, rest, earned - {key}, account, now, t);
    } else {
      var after := DeliverGrant(pub, Enqueue(db, (key, account)), u.value, account, now).0;
      ObligingNeverWaits(pub, Enqueue(db, (key, account)), u.value, account, now);
      if key == t.key {
        QueuedIsOwed(db, (key, account));
        ObligingGrantPays(pub, Enqueue(db, (key, account)), t, account, now);
        PaidStaysForGrant(pub, after, rest, earned - {key}, account, now, (key, account), t);
      } else {
        OtherRowsStay(pub, db, u.value, account, now, (t.key, account));
        GrantPassPays(pub, after, rest, earned - {key}, account, now, t);
      }
    }
  }

  lemma ObligingNeverWaits(pub: Publisher, db: Db, t: Tier, account: Account, now: int)
    requires forall n: nat :: pub(n) == 0
    ensures DeliverGrant(pub, db, t, account, now).1 != RetryLater
  {
    hide GiveItems;
  }

  /** Earned, and not sealed already, whatever else its row holds. */
  predicate Owed(db: Db, c: Claim) {
    c in db.claims && db.claims[c] == Earned && (c in db.ledger ==> db.ledger[c].status != Sealed)
  }

  lemma QueuedIsOwed(db: Db, c: Claim)
    requires Owed(db, c)
    ensures var queued := Enqueue(db, c);
            && queued.tiers == db.tiers && c in queued.ledger && queued.ledger[c].status != Sealed
            && c in queued.claims && queued.claims[c] == Earned
  {
  }

  /** A manual grant for a player who can be named, with a publisher that answers 0, pays
      every earned claim of the account that the pass reaches and that was not paid before,
      in full under its tier: whether its tier is enabled, and whether its row is new,
      waiting, or out of attempts. */
  lemma ManualGrantPays(pub: Publisher, db: Db, account: Account, fls: string, order: seq<TierKey>, now: int, t: Tier)
    requires Inv(db) && (forall n: nat :: pub(n) == 0) && fls != "" && t in db.tiers && t.key in order
    requires var c := (t.key, account); c in db.claims && db.claims[c] == Earned && c !in db.delivered
    ensures var c, after := (t.key, account), GrantAccount(pub, db, account, Some(fls), order, now);
            c in after.claims && after.claims[c] == Granted && PaidUnder(after.log, c, t)
  {
    hide GrantEarned, PaidUnder;
    var c, earned := (t.key, account), EarnedKeys(db.claims, account);
    assert RowsAgree(db, c);
    assert t.key in earned;
    GrantPassPays(pub, db, order, earned, account, now, t);
    StepKeepsInv(pub, db, ManualGrant(account, Some(fls), order, now));
    assert BooksBalance(GrantAccount(pub, db, account, Some(fls), order, now), c);
  }

  // ---------------------------------------------------------- a player who is online

  lemma {:induction false} ItemsAreGifts(pub: Publisher, log: seq<Call>, c: Claim, items: seq<RewardItem>)
    ensures var after := GiveItems(pub, log, c, items);
            |log| <= |after| && after[..|log|] == log && forall i | |log| <= i < |after| :: after[i].GiveItem?
    decreases items
  {
    if items != [] {
      var call := GiveItem(c, items[0], pub(|log|));
      ItemsAreGifts(pub, log + [call], c, items[1..]);
      var after := GiveItems(pub, log, c, items);
      assert after[..|log|] == after[..|log| + 1][..|log|];
      assert after[|log|] == after[..|log| + 1][|log|] == call;
    }
  }

  /** The call found the player online. */
  predicate FoundOnline(call: Call) { call.AwardIntel? && call.rc == 4 }

  /** No call of the pass follows one that found the player online. */
  predicate EndsOnline(log: seq<Call>, from: nat) {
    forall i | from <= i < |log| - 1 :: !FoundOnline(log[i])
  }

  lemma DeliveryEndsOnline(pub: Publisher, db: Db, t: Tier, account: Account, now: int)
    ensures var (after, outcome) := DeliverGrant(pub, db, t, account, now);
            && |db.log| <= |after.log| && after.log[..|db.log|] == db.log
            && (forall i | |db.log| <= i < |after.log| && FoundOnline(after.log[i]) ::
                  i == |after.log| - 1 && outcome == RetryLater)
  {
    hide GiveItems;
    var c, rc := (t.key, account), pub(|db.log|);
    ItemsAreGifts(pub, db.log, c, t.items);
    ItemsAreGifts(pub, db.log + [AwardIntel(c, t.intel, rc)], c, t.items);
  }

  /** A manual grant that finds the player online makes no further call. */
  lemma {:induction false} OnlineEndsGrant(pub: Publisher, db: Db, order: seq<TierKey>, earned: set<TierKey>,
                                           account: Account, now: int)
    ensures var after := GrantEarned(pub, db, order, earned, account, now);
            |db.log| <= |after.log| && after.log[..|db.log|] == db.log && EndsOnline(after.log, |db.log|)
    decreases order
  {
    hide DeliverGrant, FoundOnline;
    if order != [] {
      var key := order[0];
      var u := FindTier(db.tiers, key);
      if key !in earned || u.None? {
        OnlineEndsGrant(pub, db, order[1..], earned - {key}, account, now);
      } else {
        var queued := Enqueue(db, (key, account));
        assert queued.log == db.log;
        var (mid, outcome) := DeliverGrant(pub, queued, u.value, account, now);
        DeliveryEndsOnline(pub, queued, u.value, account, now);
        if outcome != RetryLater {
          OnlineEndsGrant(pub, mid, order[1..], earned - {key}, account, now);
          var after := GrantEarned(pub, db, order, earned, account, now);
          assert after.log[..|db.log|] == after.log[..|mid.log|][..|db.log|];
          forall i | |db.log| <= i < |after.log| - 1 ensures !FoundOnline(after.log[i]) {
            if i < |mid.log| { assert after.log[..|mid.log|][i] == mid.log[i]; }
          }
        }
      }
    }
  }

  // ------------------------------------------------------------- one award attempt

  /** An award attempt is one call. When it finds the player online the row waits five
      minutes and loses no attempt; when it fails otherwise the row loses one and waits a
      day, and the third loss exhausts it; nothing is given in either case. */
  lemma AttemptIsRecorded(pub: Publisher, db: Db, t: Tier, account: Account, now: int)
    requires t.intel > 0
    requires var c := (t.key, account);
             && c in db.claims && db.claims[c] == Earned && c in db.ledger && db.ledger[c].status != Sealed
    ensures (t.key, account) in DeliverGrant(pub, db, t, account, now).0.ledger
    ensures var c, after := (t.key, account), DeliverGrant(pub, db, t, account, now).0;
            var was, row := db.ledger[c], after.ledger[c];
            && |after.log| > |db.log| && after.log[|db.log|] == AwardIntel(c, t.intel, pub(|db.log|))
            && var rc := after.log[|db.log|].rc;
               && (rc != 0 ==> after.claims == db.claims && |after.log| == |db.log| + 1)
               && (rc == 4 ==> row == was.(nextAttemptAt := now + 300))
               && (rc != 0 && rc != 4 ==>
                     && row.attempts == was.attempts + 1 && row.nextAttemptAt == now + 86400
                     && row.status == if row.attempts < 3 then Pending else Exhausted)
  {
    hide GiveItems;
    var c := (t.key, account);
    ItemsAreGifts(pub, db.log + [AwardIntel(c, t.intel, pub(|db.log|))], c, t.items);
    var log := GiveItems(pub, db.log + [AwardIntel(c, t.intel, pub(|db.log|))], c, t.items);
    assert log[|db.log|] == log[..|db.log| + 1][|db.log|];
  }

  /** With a publisher that refuses every call, a claim that is newly earned has one attempt
      behind it after a pass that reaches it, and waits a day for the next. */
  lemma {:induction false} RefusedPassCounts(pub: Publisher, db: Db, order: seq<Claim>, due: set<Claim>,
                                             tiers: seq<Tier>, players: seq<Player>, now: int, c: Claim)
    requires (forall n: nat :: pub(n) != 0 && pub(n) != 4) && c in order && c in due
    requires FindTier(tiers, c.0).Some? && FindTier(tiers, c.0).value.intel > 0
    requires FindPlayer(players, c.1).Some? && FindPlayer(players, c.1).value.fls != ""
    requires c in db.claims && db.claims[c] == Earned && c in db.ledger && db.ledger[c].status == Pending
    ensures var row := DeliverDue(pub, db, order, due, tiers, players, now).ledger;
            c in row && row[c] == Refused(db.ledger[c].attempts + 1, now)
    decreases order
  {
    hide DeliverGrant;
    var d := order[0];
    var t, p := FindTier(tiers, d.0), FindPlayer(players, d.1);
    FoundTierHasKey(tiers, d.0);
    if d !in due || t.None? || p.None? || p.value.fls == "" {
      RefusedPassCounts(pub, db, order[1..], due - {d}, tiers, players, now, c);
    } else {
      var after := DeliverGrant(pub, db, t.value, d.1, now).0;
      if d == c {
        AttemptIsRecorded(pub, db, t.value, d.1, now);
        DuePassSkips(pub, after, order[1..], due - {d}, tiers, players, now, c);
      } else {
        DeliveryCallsOwn(pub, db, t.value, d.1, now, c);
        OthersStayEarned(pub, db, t.value, d.1, now, c);
        RefusedPassCounts(pub, after, order[1..], due - {d}, tiers, players, now, c);
      }
    }
  }

  /** The row after so many refusals. */
  function Refused(attempts: nat, now: int): GrantRow {
    GrantRow(if attempts < 3 then Pending else Exhausted, attempts, now + 86400)
  }

  lemma OthersStayEarned(pub: Publisher, db: Db, t: Tier, account: Account, now: int, c: Claim)
    requires c != (t.key, account)
    ensures var after := DeliverGrant(pub, db, t, account, now).0;
            (c in after.claims <==> c in db.claims) && (c in db.claims ==> after.claims[c] == db.claims[c])
  {
    hide GiveItems;
  }

  /** A claim that is newly earned is queued with no attempt behind it, due at once: when the
      tick that finds it is refused, that is its first. */
  lemma FirstRefusalIsFirstAttempt(pub: Publisher, db: Db, order: seq<Claim>, tiers: seq<Tier>, players: seq<Player>,
                                   now: int, c: Claim)
    requires (forall n: nat :: pub(n) != 0 && pub(n) != 4) && c in order && now >= 0
    requires FindTier(tiers, c.0).Some? && FindTier(tiers, c.0).value.intel > 0
    requires FindPlayer(players, c.1).Some? && FindPlayer(players, c.1).value.fls != ""
    requires c in db.claims && db.claims[c] == Earned && c !in db.ledger
    ensures var row := GrantPass(pub, db, order, tiers, players, now).ledger;
            c in row && row[c] == GrantRow(Pending, 1, now + 86400)
  {
    hide DeliverDue;
    var queued := EnqueueAll(db, EarnedClaims(db.claims));
    RefusedPassCounts(pub, queued, order, DueClaims(queued.ledger, now), tiers, players, now, c);
  }

  /** So it is when the manual grant queued it. */
  lemma ManualRefusalIsFirstAttempt(pub: Publisher, db: Db, account: Account, fls: string, key: TierKey,
                                    rest: seq<TierKey>, now: int)
    requires pub(|db.log|) != 0 && pub(|db.log|) != 4 && fls != ""
    requires FindTier(db.tiers, key).Some? && FindTier(db.tiers, key).value.intel > 0
    requires var c := (key, account); c in db.claims && db.claims[c] == Earned && c !in db.ledger
    ensures var row := GrantAccount(pub, db, account, Some(fls), [key] + rest, now).ledger;
            (key, account) in row && row[(key, account)] == GrantRow(Pending, 1, now + 86400)
  {
    hide DeliverGrant;
    var c, earned, t := (key, account), EarnedKeys(db.claims, account), FindTier(db.tiers, key).value;
    FoundTierHasKey(db.tiers, key);
    assert key in earned;
    var queued := Enqueue(db, c);
    AttemptIsRecorded(pub, queued, t, account, now);
    var (after, outcome) := DeliverGrant(pub, queued, t, account, now);
    RefusedIsFailed(pub, queued, t, account, now);
    assert ([key] + rest)[0] == key && ([key] + rest)[1..] == rest;
    GrantSkips(pub, after, rest, earned - {key}, account, now, c);
  }

  lemma RefusedIsFailed(pub: Publisher, db: Db, t: Tier, account: Account, now: int)
    requires pub(|db.log|) != 4
    ensures DeliverGrant(pub, db, t, account, now).1 != RetryLater
  {
    hide GiveItems;
  }

  lemma {:induction false} GrantSkips(pub: Publisher, db: Db, order: seq<TierKey>, earned: set<TierKey>,
                                      account: Account, now: int, c: Claim)
    requires c.1 == account ==> c.0 !in earned
    ensures var after := GrantEarned(pub, db, order, earned, account, now);
            (c in after.ledger <==> c in db.ledger) && (c in db.ledger ==> after.ledger[c] == db.ledger[c])
    decreases order
  {
    hide DeliverGrant, Enqueue;
    if order != [] {
      var key := order[0];
      var u := FindTier(db.tiers, key);
      FoundTierHasKey(db.tiers, key);
      if key !in earned || u.None? {
        GrantSkips(pub, db, order[1..], earned - {key}, account, now, c);
      } else {
        var after := DeliverGrant(pub, Enqueue(db, (key, account)), u.value, account, now).0;
        OtherRowsStay(pub, db, u.value, account, now, c);
        GrantSkips(pub, after, order[1..], earned - {key}, account, now, c);
      }
    }
  }

  /** The row is out of attempts, or waits for a later time. */
  predicate Waits(row: GrantRow, now: int) {
    row.status == Exhausted || (row.status == Pending && row.nextAttemptAt > now)
  }

  lemma DeliveryCallsOwn(pub: Publisher, db: Db, t: Tier, account: Account, now: int, c: Claim)
    requires c != (t.key, account)
    ensures var after := DeliverGrant(pub, db, t, account, now).0;
            && CallsFor(after.log, c) == CallsFor(db.log, c)
            && (c in after.ledger <==> c in db.ledger) && (c in db.ledger ==> after.ledger[c] == db.ledger[c])
  {
    hide CallsFor, GiveItems;
    LoggedForOthers(pub, db, t, (t.key, account), c);
  }

  lemma {:induction false} DuePassSkips(pub: Publisher, db: Db, order: seq<Claim>, due: set<Claim>, tiers: seq<Tier>,
                                        players: seq<Player>, now: int, c: Claim)
    requires c !in due
    ensures var after := DeliverDue(pub, db, order, due, tiers, players, now);
            && CallsFor(after.log, c) == CallsFor(db.log, c)
            && (c in after.ledger <==> c in db.ledger) && (c in db.ledger ==> after.ledger[c] == db.ledger[c])
    decreases order
  {
    hide DeliverGrant, CallsFor;
    if order != [] {
      var d := order[0];
      var t, p := FindTier(tiers, d.0), FindPlayer(players, d.1);
      FoundTierHasKey(tiers, d.0);
      if d !in due || t.None? || p.None? || p.value.fls == "" {
        DuePassSkips(pub, db, order[1..], due - {d}, tiers, players, now, c);
      } else {
        DeliveryCallsOwn(pub, db, t.value, d.1, now, c);
        DuePassSkips(pub, DeliverGrant(pub, db, t.value, d.1, now).0, order[1..], due - {d}, tiers, players, now, c);
      }
    }
  }

  /** Until its time, or when it is out of attempts, a row is left as it is by every tick,
      and no tick makes a call for it: only a manual grant does. */
  lemma TickLeavesWaiting(pub: Publisher, db: Db, cfg: Config, now: int, force: bool, players: Option<seq<Player>>,
                          order: seq<Claim>, c: Claim)
    requires c in db.ledger && Waits(db.ledger[c], now)
    ensures var after := RunTick(pub, db, cfg, now, force, players, order);
            CallsFor(after.log, c) == CallsFor(db.log, c) && c in after.ledger && after.ledger[c] == db.ledger[c]
  {
    hide ScanPlayers, DeliverDue, CallsFor;
    var paced, tiers := db.(nextDue := Some(now + cfg.pollSeconds)), EnabledTiers(db.tiers);
    if players.Some? {
      ScanKeepsDelivery(paced, tiers, players.value, cfg.awardPast);
      var scanned := ScanPlayers(paced, tiers, players.value, cfg.awardPast);
      if scanned.Some? {
        var queued := EnqueueAll(scanned.value, EarnedClaims(scanned.value.claims));
        DuePassSkips(pub, queued, order, DueClaims(queued.ledger, now), tiers, players.value, now, c);
      }
    }
  }

  // ------------------------------------------------------------------ when a tick runs

  /** A tick does nothing while the engine is off, nor before its time unless it is forced;
      otherwise it sets the time of the next one. */
  lemma TickIsPaced(pub: Publisher, db: Db, cfg: Config, now: int, force: bool, players: Option<seq<Player>>,
                    order: seq<Claim>)
    ensures var after := RunTick(pub, db, cfg, now, force, players, order);
            if cfg.enabled && (force || db.nextDue.None? || db.nextDue.value <= now)
            then after.nextDue == Some(now + cfg.pollSeconds) else after == db
  {
    hide ScanPlayers, DeliverDue;
    var paced, tiers := db.(nextDue := Some(now + cfg.pollSeconds)), EnabledTiers(db.tiers);
    if players.Some? {
      ScanKeepsDelivery(paced, tiers, players.value, cfg.awardPast);
      var scanned := ScanPlayers(paced, tiers, players.value, cfg.awardPast);
      if scanned.Some? {
        var queued := EnqueueAll(scanned.value, EarnedClaims(scanned.value.claims));
        DuePassKeepsStamp(pub, queued, order, DueClaims(queued.ledger, now), tiers, players.value, now);
      }
    }
  }

  lemma {:induction false} DuePassKeepsStamp(pub: Publisher, db: Db, order: seq<Claim>, due: set<Claim>,
                                             tiers: seq<Tier>, players: seq<Player>, now: int)
    ensures DeliverDue(pub, db, order, due, tiers, players, now).nextDue == db.nextDue
    decreases order
  {
    if order != [] {
      var d := order[0];
      var t := FindTier(tiers, d.0);
      DuePassKeepsStamp(pub, db, order[1..], due - {d}, tiers, players, now);
      if t.Some? {
        DuePassKeepsStamp(pub, DeliverGrant(pub, db, t.value, d.1, now).0, order[1..], due - {d}, tiers, players, now);
      }
    }
  }

  /** With auto-grant off a tick pays nothing and queues nothing. */
  lemma NoAutoGrant(pub: Publisher, db: Db, cfg: Config, now: int, force: bool, players: Option<seq<Player>>,
                    order: seq<Claim>)
    requires !cfg.autoGrant
    ensures var after := RunTick(pub, db, cfg, now, force, players, order);
            after.log == db.log && after.ledger == db.ledger && after.delivered == db.delivered
  {
    hide ScanPlayers, GrantPass;
    var paced, tiers := db.(nextDue := Some(now + cfg.pollSeconds)), EnabledTiers(db.tiers);
    if players.Some? { ScanKeepsDelivery(paced, tiers, players.value, cfg.awardPast); }
  }

  // ------------------------------------------------------------- what a tick decides

  predicate Answered(p: Player) { p.journey.Some? && p.tags.Some? }

  /** Only a query that fails makes a scan raise. */
  lemma {:induction false} ScanSucceeds(db: Db, tiers: seq<Tier>, players: seq<Player>, awardPast: bool)
    requires forall p | p in players :: Answered(p)
    ensures ScanPlayers(db, tiers, players, awardPast).Some?
    decreases players
  {
    hide ScanOpen;
    if players != [] {
      var open := OpenTiers(tiers, db.claims, players[0].account);
      assert Answered(players[0]);
      ScanSucceeds(ScanOpen(db, open, players[0], db.seen, awardPast), tiers, players[1..], awardPast);
    }
  }

  /** The query behind the tier's signal did not answer for the player. */
  predicate Unread(t: Tier, p: Player) {
    (t.signal.JourneyNode? && p.journey.None?) || (t.signal.PlayerTag? && p.tags.None?)
  }

  predicate AppliesTo(t: Tier, p: Player) {
    match t.signal
    case Level => p.level >= t.threshold
    case JourneyNode => p.journey.Some? && t.signalKey in p.journey.value
    case PlayerTag => p.tags.Some? && t.signalKey in p.tags.value
  }

  /** Row i needs a query that did not answer: its player has no claim of the tier yet, and no
      row of the same account listed before it met the tier. */
  ghost predicate RowRaises(claims: map<Claim, ClaimStatus>, tiers: seq<Tier>, players: seq<Player>, i: nat, t: Tier) {
    && i < |players| && t in tiers && Unread(t, players[i]) && (t.key, players[i].account) !in claims
    && forall j | 0 <= j < i && players[j].account == players[i].account :: !AppliesTo(t, players[j])
  }

  lemma MetIsClaimed(db: Db, tiers: seq<Tier>, p: Player, awardPast: bool)
    requires DistinctKeys(tiers)
    ensures var claims := ScanOpen(db, OpenTiers(tiers, db.claims, p.account), p, db.seen, awardPast).claims;
            forall t, account | t in tiers ::
              (t.key, account) in claims <==>
              (t.key, account) in db.claims || (account == p.account && AppliesTo(t, p))
  {
    hide ScanOpen, OpenTiers;
    PlayerIsPointwise(db, tiers, p, awardPast);
    var after := ScanOpen(db, OpenTiers(tiers, db.claims, p.account), p, db.seen, awardPast);
    forall t, account | t in tiers
      ensures (t.key, account) in after.claims <==>
              (t.key, account) in db.claims || (account == p.account && AppliesTo(t, p))
    {
      if account == p.account {
        assert Decided(db, after, t, p, awardPast);
      } else {
        assert SameAt(db, after, (t.key, account));
      }
    }
  }

  /** A scan raises exactly when some row needs a query that did not answer. */
  lemma {:induction false} ScanRaisesIff(db: Db, tiers: seq<Tier>, players: seq<Player>, awardPast: bool)
    requires DistinctKeys(tiers)
    ensures ScanPlayers(db, tiers, players, awardPast).None? <==>
            exists i: nat, t :: RowRaises(db.claims, tiers, players, i, t)
    decreases players
  {
    hide ScanOpen, OpenTiers;
    if players != [] {
      var p, rest := players[0], players[1..];
      var open := OpenTiers(tiers, db.claims, p.account);
      var mid := ScanOpen(db, open, p, db.seen, awardPast);
      OpenTiersListed(tiers, db.claims, p.account);
      assert FetchFails(open, p) <==> exists t :: RowRaises(db.claims, tiers, players, 0, t) by {
        if t :| t in open && Unread(t, p) { assert RowRaises(db.claims, tiers, players, 0, t); }
      }
      MetIsClaimed(db, tiers, p, awardPast);
      ScanRaisesIff(mid, tiers, rest, awardPast);
      forall i: nat, t ensures RowRaises(mid.claims, tiers, rest, i, t) <==>
                               RowRaises(db.claims, tiers, players, i + 1, t) {
        hide AppliesTo;
        RaisesLater(db.claims, mid.claims, tiers, players, i, t);
      }
      if !FetchFails(open, p) {
        if i: nat, t :| RowRaises(mid.claims, tiers, rest, i, t) {
          assert RowRaises(db.claims, tiers, players, i + 1, t);
        }
        if i: nat, t :| RowRaises(db.claims, tiers, players, i, t) {
          assert i > 0 && RowRaises(mid.claims, tiers, rest, i - 1, t);
        }
      }
    }
  }

  lemma RaisesLater(claims: map<Claim, ClaimStatus>, after: map<Claim, ClaimStatus>, tiers: seq<Tier>,
                    players: seq<Player>, i: nat, t: Tier)
    requires players != []
    requires forall t, account | t in tiers ::
               (t.key, account) in after <==>
               (t.key, account) in claims || (account == players[0].account && AppliesTo(t, players[0]))
    ensures RowRaises(after, tiers, players[1..], i, t) <==> RowRaises(claims, tiers, players, i + 1, t)
  {
    hide AppliesTo, Unread;
    var rest := players[1..];
    if i < |rest| && t in tiers {
      assert rest[i] == players[i + 1];
      if RowRaises(after, tiers, rest, i, t) {
        forall j | 0 <= j < i + 1 && players[j].account == players[i + 1].account ensures !AppliesTo(t, players[j]) {
          if j > 0 { assert rest[j - 1] == players[j]; }
        }
      }
      if RowRaises(claims, tiers, players, i + 1, t) {
        assert players[0].account == players[i + 1].account ==> !AppliesTo(t, players[0]);
        forall j | 0 <= j < i && rest[j].account == rest[i].account ensures !AppliesTo(t, rest[j]) {
          assert rest[j] == players[j + 1];
        }
      }
    }
  }

  /** The account is listed once. */
  predicate OnlyRow(players: seq<Player>, p: Player) {
    exists i | 0 <= i < |players| :: players[i] == p && forall j | 0 <= j < |players|
        && j != i :: players[j].account != p.account
  }

  lemma {:induction false} NoRows(m: Mark, t: Tier, players: seq<Player>, account: Account, awardPast: bool)
    requires forall p | p in players :: p.account != account
    ensures DecideAll(m, t, players, account, awardPast) == m
    decreases players
  {
    if players != [] { NoRows(m, t, players[1..], account, awardPast); }
  }

  lemma {:induction false} OneRow(m: Mark, t: Tier, players: seq<Player>, p: Player, awardPast: bool)
    requires OnlyRow(players, p)
    ensures DecideAll(m, t, players, p.account, awardPast) == Decide(m, t, p, awardPast)
    decreases players
  {
    hide Decide;
    var i :| 0 <= i < |players| && players[i] == p && forall j | 0 <= j < |players|
        && j != i :: players[j].account != p.account;
    var rest := players[1..];
    if i == 0 {
      NoRows(Decide(m, t, p, awardPast), t, rest, p.account, awardPast);
    } else {
      assert rest[i - 1] == p && forall j | 0 <= j < |rest| && j != i - 1 :: rest[j] == players[j + 1];
      OneRow(m, t, rest, p, awardPast);
    }
  }

  /** An open claim of a listed player is decided by the player's own level, node or tag:
      met, it is earned when it was seen unmet before or past progress counts, and is a
      baseline otherwise; unmet, it stays open and the tier is marked as seen. */
  lemma ScanMeans(db: Db, tiers: seq<Tier>, players: seq<Player>, awardPast: bool, t: Tier, p: Player)
    requires DistinctKeys(tiers) && t in tiers && OnlyRow(players, p)
             && ScanPlayers(db, tiers, players, awardPast).Some?
    requires (t.key, p.account) !in db.claims
    ensures var c, after := (t.key, p.account), ScanPlayers(db, tiers, players, awardPast).value;
            var met := match t.signal
                       case Level => p.level >= t.threshold
                       case JourneyNode => p.journey.Some? && t.signalKey in p.journey.value
                       case PlayerTag => p.tags.Some? && t.signalKey in p.tags.value;
            if met then
              && c in after.claims && after.claims[c] == (if awardPast || c in db.seen then Earned else Baseline)
              && (c in after.seen <==> c in db.seen)
            else c !in after.claims && c in after.seen
  {
    ScanIsPointwise(db, tiers, players, awardPast);
    var c, after := (t.key, p.account), ScanPlayers(db, tiers, players, awardPast).value;
    hide ScanPlayers;
    OneRow(MarkAt(db, c), t, players, p, awardPast);
    assert MarkAt(after, c) == DecideAll(MarkAt(db, c), t, players, p.account, awardPast);
  }

  lemma {:induction false} EnabledIsKept(tiers: seq<Tier>, t: Tier)
    requires t in tiers && t.enabled
    ensures t in EnabledTiers(tiers)
    decreases tiers
  {
    if t != tiers[0] { EnabledIsKept(tiers[1..], t); }
  }

  lemma {:induction false} EnabledDistinct(tiers: seq<Tier>)
    requires DistinctKeys(tiers)
    ensures DistinctKeys(EnabledTiers(tiers)) && forall t | t in EnabledTiers(tiers) :: t in tiers
    decreases tiers
  {
    if tiers != [] {
      EnabledDistinct(tiers[1..]);
      var rest := EnabledTiers(tiers[1..]);
      forall t | t in rest ensures t.key != tiers[0].key {
        var k :| 0 <= k < |tiers[1..]| && tiers[1..][k] == t;
        assert tiers[k + 1] == t;
      }
    }
  }

  lemma {:induction false} RowIsFound(players: seq<Player>, p: Player)
    requires OnlyRow(players, p)
    ensures FindPlayer(players, p.account) == Some(p)
    decreases |players|
  {
    var i :| 0 <= i < |players| && players[i] == p && forall j | 0 <= j < |players|
        && j != i :: players[j].account != p.account;
    var front := players[..|players| - 1];
    if i < |players| - 1 {
      assert front[i] == p && forall j | 0 <= j < |front| && j != i :: front[j] == players[j];
      RowIsFound(front, p);
    }
  }

  /** Whom a tick pays: an engine that is on, at its time or forced, with auto-grant on and
      every fetch answered, pays each claim that is earned, not paid before and not waiting,
      of an enabled tier and a listed player with a name to send to. */
  lemma TickPaysEarned(pub: Publisher, db: Db, cfg: Config, now: int, force: bool, players: seq<Player>,
                       order: seq<Claim>,
                       t: Tier, p: Player)
    requires Inv(db) && (forall n: nat :: pub(n) == 0) && now >= 0
    requires cfg.enabled && (force || db.nextDue.None? || db.nextDue.value <= now) && cfg.autoGrant
    requires (forall q | q in players :: Answered(q)) && OnlyRow(players, p) && p.fls != ""
    requires t in db.tiers && t.enabled && (t.key, p.account) in order
    requires var c := (t.key, p.account);
             && c in db.claims && db.claims[c] == Earned && c !in db.delivered
             && (c in db.ledger ==> db.ledger[c].status == Pending && db.ledger[c].nextAttemptAt <= now)
    ensures var c, after := (t.key, p.account), RunTick(pub, db, cfg, now, force, Some(players), order);
            c in after.claims && after.claims[c] == Granted && PaidUnder(after.log, c, t)
  {
    var c := (t.key, p.account);
    var paced, tiers := db.(nextDue := Some(now + cfg.pollSeconds)), EnabledTiers(db.tiers);
    assert RowsAgree(db, c);
    EnabledIsKept(db.tiers, t);
    EnabledDistinct(db.tiers);
    TierIsFound(tiers, t);
    RowIsFound(players, p);
    ScanSucceeds(paced, tiers, players, cfg.awardPast);
    ScanKeepsDelivery(paced, tiers, players, cfg.awardPast);
    hide RunTick, ScanPlayers, FindTier, FindPlayer, EnabledTiers, PaidUnder, Inv, Answered;
    TickPaysEveryEarnedClaim(pub, db, cfg, now, force, players, order, c);
  }

  // ----------------------------------------------------------------- resets and edits

  /** A demote turns the earned claims in its scope into baselines; a purge removes every
      claim and marker in its scope. Either removes the rows there that are not sealed.
      Nothing else changes. */
  lemma ResetMeans(db: Db, mode: ResetMode, account: Account, c: Claim)
    ensures var after := ResetClaims(db, mode, account);
            var within := account == 0 || c.1 == account;
            && after == db.(claims := after.claims, seen := after.seen, ledger := after.ledger)
            && (c in after.ledger <==> c in db.ledger && (db.ledger[c].status == Sealed || !within))
            && (c in after.ledger ==> after.ledger[c] == db.ledger[c])
            && (c in after.seen <==> c in db.seen && !(mode == Purge && within))
            && (c in after.claims <==> c in db.claims && !(mode == Purge && within))
            && (c in after.claims ==>
                  after.claims[c] == if mode == Demote && within && db.claims[c] == Earned then Baseline
                      else db.claims[c])
  {
  }

  /** What every tier of a catalog satisfies. */
  predicate Sound(t: Tier) {
    && t.key != "" && t.intel >= 0 && t.threshold >= 0
    && (t.signal.Level? ==> t.threshold >= 1) && (!t.signal.Level? ==> t.signalKey != "")
    && forall it | it in t.items :: it.template != ""
  }

  lemma StepKeepsSound(pub: Publisher, db: Db, e: Event)
    requires forall t | t in db.tiers :: Sound(t)
    ensures forall t | t in Step(pub, db, e).tiers :: Sound(t)
  {
    match e
    case Tick(cfg, now, force, players, order) => TickKeepsTiers(pub, db, cfg, now, force, players, order);
    case ManualGrant(account, fls, keys, at) =>
      GrantKeepsTiers(pub, db, keys, EarnedKeys(db.claims, account), account, at);
    case Reset(mode, scope) =>
    case Reseed(tiers) => ReseedKeepsSound(db, tiers);
    case Seed(catalog) => ReseedKeepsSound(db, catalog);
    case EditTier(id, edited) => EditKeepsSound(db, id, edited);
  }

  lemma ReseedKeepsSound(db: Db, rows: seq<Tier>)
    requires forall t | t in db.tiers :: Sound(t)
    ensures forall t | t in ReseedTiers(db, rows).tiers :: Sound(t)
  {
    var after := ReseedTiers(db, rows).tiers;
    forall t | t in after ensures Sound(t) {
      var i :| 0 <= i < |after| && after[i] == t;
      if after != db.tiers { assert rows[i] in rows && ValidTier(rows[i]); }
    }
  }

  lemma EditKeepsSound(db: Db, id: int, edited: Tier)
    requires forall t | t in db.tiers :: Sound(t)
    ensures forall t | t in UpdateTier(db, id, edited).tiers :: Sound(t)
  {
    var after := UpdateTier(db, id, edited).tiers;
    forall t | t in after ensures Sound(t) {
      var i :| 0 <= i < |after| && after[i] == t;
      assert Sound(db.tiers[i]);
    }
  }

  lemma TickKeepsTiers(pub: Publisher, db: Db, cfg: Config, now: int, force: bool, players: Option<seq<Player>>,
                       order: seq<Claim>)
    ensures RunTick(pub, db, cfg, now, force, players, order).tiers == db.tiers
  {
    hide ScanPlayers, DeliverDue;
    var paced, tiers := db.(nextDue := Some(now + cfg.pollSeconds)), EnabledTiers(db.tiers);
    if players.Some? {
      ScanKeepsDelivery(paced, tiers, players.value, cfg.awardPast);
      var scanned := ScanPlayers(paced, tiers, players.value, cfg.awardPast);
      if scanned.Some? {
        var queued := EnqueueAll(scanned.value, EarnedClaims(scanned.value.claims));
        DuePassKeepsTiers(pub, queued, order, DueClaims(queued.ledger, now), tiers, players.value, now);
      }
    }
  }

  lemma {:induction false} DuePassKeepsTiers(pub: Publisher, db: Db, order: seq<Claim>, due: set<Claim>,
                                             tiers: seq<Tier>, players: seq<Player>, now: int)
    ensures DeliverDue(pub, db, order, due, tiers, players, now).tiers == db.tiers
    decreases order
  {
    if order != [] {
      var d := order[0];
      var t := FindTier(tiers, d.0);
      DuePassKeepsTiers(pub, db, order[1..], due - {d}, tiers, players, now);
      if t.Some? {
        DuePassKeepsTiers(pub, DeliverGrant(pub, db, t.value, d.1, now).0, order[1..], due - {d}, tiers, players, now);
      }
    }
  }

  lemma {:induction false} GrantKeepsTiers(pub: Publisher, db: Db, order: seq<TierKey>, earned: set<TierKey>,
                                           account: Account, now: int)
    ensures GrantEarned(pub, db, order, earned, account, now).tiers == db.tiers
    decreases order
  {
    if order != [] {
      var key := order[0];
      var u := FindTier(db.tiers, key);
      GrantKeepsTiers(pub, db, order[1..], earned - {key}, account, now);
      if u.Some? {
        var after := DeliverGrant(pub, Enqueue(db, (key, account)), u.value, account, now).0;
        GrantKeepsTiers(pub, after, order[1..], earned - {key}, account, now);
      }
    }
  }

  /** Over every run the catalog holds sound tiers only, whatever was proposed. */
  lemma {:induction false} CatalogIsSound(pub: Publisher, es: seq<Event>)
    ensures forall t | t in Run(pub, es).tiers :: Sound(t)
    decreases |es|
  {
    hide Step, Sound;
    if es != [] {
      CatalogIsSound(pub, es[..|es| - 1]);
      StepKeepsSound(pub, Run(pub, es[..|es| - 1]), es[|es| - 1]);
    }
  }

  /** A list of sound tiers with distinct keys replaces the catalog under new ids. */
  lemma ReseedInstalls(db: Db, rows: seq<Tier>)
    requires rows != [] && (forall t | t in rows :: Sound(t))
    requires forall i, j | 0 <= i < j < |rows| :: rows[i].key != rows[j].key
    ensures var after := ReseedTiers(db, rows);
            && after == db.(tiers := after.tiers, nextId := after.nextId)
            && |after.tiers| == |rows| && after.nextId >= db.nextId + |rows|
            && (forall i | 0 <= i < |rows| ::
                  after.tiers[i] == rows[i].(id := after.tiers[i].id) && db.nextId <= after.tiers[i].id < after.nextId)
            && (forall i, j | 0 <= i < j < |rows| :: after.tiers[i].id < after.tiers[j].id)
  {
  }

  /** An edit that leaves a sound tier takes effect on the row of its id only, and keeps the
      key the claims hang on. */
  lemma EditChangesOne(db: Db, id: int, edited: Tier, i: nat)
    requires i < |db.tiers| && forall t | t in db.tiers && t.id == id :: Sound(edited.(key := t.key))
    ensures var after := UpdateTier(db, id, edited);
            && after == db.(tiers := after.tiers) && |after.tiers| == |db.tiers|
            && after.tiers[i] == if db.tiers[i].id == id then edited.(id := id, key := db.tiers[i].key) else db.tiers[i]
  {
  }
}
