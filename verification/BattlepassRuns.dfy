/** Theorems over whole runs of the battlepass. */
module BattlepassRuns {
  import opened Wrappers
  import opened Battlepass
  import opened BattlepassSafety

  // ------------------------------------------------------------ exactly once

  /** Whatever the publisher answers and whatever the operator does, a claim's
      successful intel award happens at most once, and what it was handed is
      nothing at all or exactly one tier row's reward. */
  lemma PaidAtMostOnce(pub: Publisher, es: seq<Event>, c: Claim)
    ensures var db := Run(pub, es);
            && |IntelPaid(db.log, c)| <= 1
            && (c in db.delivered ==> PaidUnder(db.log, c, db.delivered[c]))
            && (c !in db.delivered ==> Unpaid(db.log, c))
  {
    RunKeepsInv(pub, es);
    assert BooksBalance(Run(pub, es), c);
  }

  lemma DeliverKeepsDelivered(pub: Publisher, db: Db, t: Tier, account: Account, now: int, c: Claim)
    requires c in db.delivered && RowsAgree(db, c)
    ensures var after := DeliverGrant(pub, db, t, account, now).0;
            c in after.delivered && after.delivered[c] == db.delivered[c] && RowsAgree(after, c)
  {}

  lemma {:induction false} DeliverDueKeepsDelivered(pub: Publisher, db: Db, order: seq<Claim>, due: set<Claim>,
                                                    tiers: seq<Tier>,
                                                    players: seq<Player>, now: int, c: Claim)
    requires c in db.delivered && RowsAgree(db, c)
    ensures var after := DeliverDue(pub, db, order, due, tiers, players, now);
            c in after.delivered && after.delivered[c] == db.delivered[c]
    decreases order
  {
    if order != [] {
      var t := FindTier(tiers, order[0].0);
      if t.Some? {
        DeliverKeepsDelivered(pub, db, t.value, order[0].1, now, c);
        DeliverDueKeepsDelivered(pub, DeliverGrant(pub, db, t.value, order[0].1, now).0, order[1..], due - {order[0]},
                                 tiers, players, now, c);
      }
      DeliverDueKeepsDelivered(pub, db, order[1..], due - {order[0]}, tiers, players, now, c);
    }
  }

  lemma {:induction false} GrantEarnedKeepsDelivered(pub: Publisher, db: Db, order: seq<TierKey>, earned: set<TierKey>,
                                                     account: Account, now: int, c: Claim)
    requires c in db.delivered && RowsAgree(db, c)
    ensures var after := GrantEarned(pub, db, order, earned, account, now);
            c in after.delivered && after.delivered[c] == db.delivered[c]
    decreases order
  {
    if order != [] {
      var t := FindTier(db.tiers, order[0]);
      if t.Some? {
        var queued := Enqueue(db, (order[0], account));
        DeliverKeepsDelivered(pub, queued, t.value, account, now, c);
        GrantEarnedKeepsDelivered(pub, DeliverGrant(pub, queued, t.value, account, now).0, order[1..],
                                  earned - {order[0]}, account, now, c);
      }
      GrantEarnedKeepsDelivered(pub, db, order[1..], earned - {order[0]}, account, now, c);
    }
  }

  lemma {:induction false} ScanKeepsDelivery(db: Db, tiers: seq<Tier>, players: seq<Player>, awardPast: bool)
    ensures var r := ScanPlayers(db, tiers, players, awardPast);
            r.Some? ==>
            && r.value == db.(claims := r.value.claims, seen := r.value.seen)
            && (forall c | c in db.claims :: c in r.value.claims && r.value.claims[c] == db.claims[c])
    decreases players
  {
    if players != [] {
      var open := OpenTiers(tiers, db.claims, players[0].account);
      ScanOpenKeepsDelivery(db, open, players[0], db.seen, awardPast);
      ScanKeepsDelivery(ScanOpen(db, open, players[0], db.seen, awardPast), tiers, players[1..], awardPast);
    }
  }

  lemma {:induction false} ScanOpenKeepsDelivery(db: Db, open: seq<Tier>, p: Player, seen0: set<Claim>, awardPast: bool)
    ensures var r := ScanOpen(db, open, p, seen0, awardPast);
            r == db.(claims := r.claims, seen := r.seen)
            && (forall c | c in db.claims :: c in r.claims && r.claims[c] == db.claims[c])
    decreases open
  {
    if open != [] {
      ScanOpenKeepsDelivery(ScanTier(db, open[0], p, seen0, awardPast), open[1..], p, seen0, awardPast);
    }
  }

  lemma StepKeepsDelivered(pub: Publisher, db: Db, e: Event, c: Claim)
    requires Inv(db) && c in db.delivered
    ensures var after := Step(pub, db, e); c in after.delivered && after.delivered[c] == db.delivered[c]
  {
    assert RowsAgree(db, c);
    match e
    case Tick(cfg, now, force, players, order) =>
      var paced := db.(nextDue := Some(now + cfg.pollSeconds));
      var tiers := EnabledTiers(db.tiers);
      if players.Some? {
        var scanned := ScanPlayers(paced, tiers, players.value, cfg.awardPast);
        ScanKeepsDelivery(paced, tiers, players.value, cfg.awardPast);
        if scanned.Some? {
          var queued := EnqueueAll(scanned.value, EarnedClaims(scanned.value.claims));
          assert RowsAgree(queued, c);
          DeliverDueKeepsDelivered(pub, queued, order, DueClaims(queued.ledger, now), tiers, players.value, now, c);
        }
      }
    case ManualGrant(account, fls, keys, at) =>
      GrantEarnedKeepsDelivered(pub, db, keys, EarnedKeys(db.claims, account), account, at, c);
    case _ =>
  }

  /** A payment is final: no later tick, grant, reset, purge or catalog edit adds
      to what a delivered claim was given. */
  lemma {:induction false} DeliveryIsFinal(pub: Publisher, es: seq<Event>, i: nat, c: Claim)
    requires i <= |es| && c in Run(pub, es[..i]).delivered
    ensures var past := Run(pub, es[..i]); var now := Run(pub, es);
            && c in now.delivered && now.delivered[c] == past.delivered[c]
            && IntelPaid(now.log, c) == IntelPaid(past.log, c)
            && ItemsGiven(now.log, c) == ItemsGiven(past.log, c)
    decreases |es|
  {
    if i == |es| {
      assert es[..i] == es;
    } else {
      var before := es[..|es| - 1];
      assert before[..i] == es[..i];
      DeliveryIsFinal(pub, before, i, c);
      RunKeepsInv(pub, before);
      StepKeepsDelivered(pub, Run(pub, before), es[|es| - 1], c);
    }
    PaidAtMostOnce(pub, es, c);
    PaidAtMostOnce(pub, es[..i], c);
  }

  lemma {:induction false} DeliverDueFromListed(pub: Publisher, db: Db, order: seq<Claim>, due: set<Claim>,
                                                tiers: seq<Tier>,
                                                players: seq<Player>, now: int, c: Claim)
    ensures var after := DeliverDue(pub, db, order, due, tiers, players, now);
            c in after.delivered ==>
              (c in db.delivered && after.delivered[c] == db.delivered[c]) || after.delivered[c] in tiers
    decreases order
  {
    if order != [] {
      var t := FindTier(tiers, order[0].0);
      FoundTierHasKey(tiers, order[0].0);
      if t.Some? {
        DeliverDueFromListed(pub, DeliverGrant(pub, db, t.value, order[0].1, now).0, order[1..], due - {order[0]},
                             tiers, players, now, c);
      }
      DeliverDueFromListed(pub, db, order[1..], due - {order[0]}, tiers, players, now, c);
    }
  }

  lemma {:induction false} GrantEarnedFromListed(pub: Publisher, db: Db, order: seq<TierKey>, earned: set<TierKey>,
                                                 account: Account, now: int, c: Claim)
    ensures var after := GrantEarned(pub, db, order, earned, account, now);
            && after.tiers == db.tiers
            && (c in after.delivered ==>
                  (c in db.delivered && after.delivered[c] == db.delivered[c]) || after.delivered[c] in db.tiers)
    decreases order
  {
    if order != [] {
      var t := FindTier(db.tiers, order[0]);
      FoundTierHasKey(db.tiers, order[0]);
      if t.Some? {
        var after := DeliverGrant(pub, Enqueue(db, (order[0], account)), t.value, account, now).0;
        GrantEarnedFromListed(pub, after, order[1..], earned - {order[0]}, account, now, c);
      }
      GrantEarnedFromListed(pub, db, order[1..], earned - {order[0]}, account, now, c);
    }
  }

  lemma {:induction false} EnabledAreListed(tiers: seq<Tier>)
    ensures forall t | t in EnabledTiers(tiers) :: t in tiers && t.enabled
    decreases tiers
  {
    if tiers != [] { EnabledAreListed(tiers[1..]); }
  }

  lemma StepDeliversListed(pub: Publisher, db: Db, e: Event, c: Claim)
    ensures var after := Step(pub, db, e);
            c in after.delivered ==>
              (c in db.delivered && after.delivered[c] == db.delivered[c]) || after.delivered[c] in db.tiers
  {
    hide RunTick, GrantEarned;
    match e
    case Tick(cfg, now, force, players, order) =>
      TickDeliversListed(pub, db, cfg, now, force, players, order, c);
    case ManualGrant(account, fls, keys, at) =>
      GrantEarnedFromListed(pub, db, keys, EarnedKeys(db.claims, account), account, at, c);
    case _ =>
  }

  lemma TickDeliversListed(pub: Publisher, db: Db, cfg: Config, now: int, force: bool, players: Option<seq<Player>>,
                           order: seq<Claim>, c: Claim)
    ensures var after := RunTick(pub, db, cfg, now, force, players, order);
            c in after.delivered ==>
              (c in db.delivered && after.delivered[c] == db.delivered[c]) || after.delivered[c] in db.tiers
  {
    hide ScanPlayers, EnqueueAll, DeliverDue, EnabledTiers, DueClaims;
    var paced := db.(nextDue := Some(now + cfg.pollSeconds));
    var tiers := EnabledTiers(db.tiers);
    EnabledAreListed(db.tiers);
    if players.Some? {
      var scanned := ScanPlayers(paced, tiers, players.value, cfg.awardPast);
      ScanKeepsDelivery(paced, tiers, players.value, cfg.awardPast);
      if scanned.Some? {
        var queued := EnqueueAll(scanned.value, EarnedClaims(scanned.value.claims));
        QueueKeepsDelivery(scanned.value, EarnedClaims(scanned.value.claims));
        DeliverDueFromListed(pub, queued, order, DueClaims(queued.ledger, now), tiers, players.value, now, c);
      }
    }
  }

  lemma QueueKeepsDelivery(db: Db, todo: set<Claim>)
    ensures EnqueueAll(db, todo) == db.(ledger := EnqueueAll(db, todo).ledger)
  {
  }

  /** The tier a claim was paid under is a row the catalog held at some point of the run. */
  lemma {:induction false} PaidTierWasListed(pub: Publisher, es: seq<Event>, c: Claim)
    requires c in Run(pub, es).delivered
    ensures exists i: nat | i < |es| :: Run(pub, es).delivered[c] in Run(pub, es[..i]).tiers
    decreases |es|
  {
    var before := es[..|es| - 1];
    var paid := Run(pub, es).delivered[c];
    StepDeliversListed(pub, Run(pub, before), es[|es| - 1], c);
    if c in Run(pub, before).delivered && paid == Run(pub, before).delivered[c] {
      PaidTierWasListed(pub, before, c);
      var i: nat :| i < |before| && paid in Run(pub, before[..i]).tiers;
      assert before[..i] == es[..i];
    } else {
      assert paid in Run(pub, es[..|es| - 1]).tiers;
    }
  }

  // ------------------------------------------------------------- provenance

  ghost predicate Payable(db: Db, c: Claim) {
    c in db.claims && (db.claims[c] == Earned || db.claims[c] == Granted)
  }

  predicate Purges(e: Event, account: Account) {
    e.Reset? && e.mode == Purge && (e.scope == 0 || e.scope == account)
  }

  /** The listed rows show an enabled tier unsatisfied for the claim's account. */
  ghost predicate SawIn(tiers: seq<Tier>, players: seq<Player>, c: Claim) {
    exists t, p | t in tiers && p in players :: t.key == c.0 && p.account == c.1 && !Satisfied(t, p)
  }

  /** They show one satisfied. */
  ghost predicate MetIn(tiers: seq<Tier>, players: seq<Player>, c: Claim) {
    exists t, p | t in tiers && p in players :: t.key == c.0 && p.account == c.1 && Satisfied(t, p)
  }

  ghost predicate CommittedScan(db: Db, e: Event) {
    && e.Tick? && Runs(db, e.cfg, e.now, e.force) && e.players.Some?
    && ScanPlayers(db.(nextDue := Some(e.now + e.cfg.pollSeconds)), EnabledTiers(db.tiers), e.players.value,
                   e.cfg.awardPast).Some?
  }

  predicate AwardsPast(e: Event) { e.Tick? && e.cfg.awardPast }

  /** A tick saw the tier unsatisfied while there was no claim. */
  ghost predicate SawUnsatisfied(db: Db, e: Event, c: Claim) {
    c !in db.claims && CommittedScan(db, e) && SawIn(EnabledTiers(db.tiers), e.players.value, c)
  }

  /** A tick saw it satisfied while there was no claim. */
  ghost predicate SawSatisfied(db: Db, e: Event, c: Claim) {
    c !in db.claims && CommittedScan(db, e) && MetIn(EnabledTiers(db.tiers), e.players.value, c)
  }

  lemma {:induction false} ScanOpenProvenance(db: Db, open: seq<Tier>, p: Player, seen0: set<Claim>, awardPast: bool,
                                              c: Claim)
    ensures var r := ScanOpen(db, open, p, seen0, awardPast);
            && (c in db.claims ==> c in r.claims)
            && (c in r.seen ==> c in db.seen || SawIn(open, [p], c))
            && (Payable(r, c) ==>
                  Payable(db, c) || (c !in db.claims && MetIn(open, [p], c) && (awardPast || c in seen0)))
    decreases open
  {
    if open != [] {
      var rest := open[1..];
      assert p in [p] && open[0] in open && forall t | t in rest :: t in open;
      ScanOpenProvenance(ScanTier(db, open[0], p, seen0, awardPast), rest, p, seen0, awardPast, c);
    }
  }

  lemma {:induction false} OpenTiersListed(tiers: seq<Tier>, claims: map<Claim, ClaimStatus>, account: Account)
    ensures forall t | t in OpenTiers(tiers, claims, account) :: t in tiers && (t.key, account) !in claims
    ensures forall t | t in tiers && (t.key, account) !in claims :: t in OpenTiers(tiers, claims, account)
    decreases tiers
  {
    if tiers != [] { OpenTiersListed(tiers[1..], claims, account); }
  }

  lemma {:induction false} ScanProvenance(db: Db, tiers: seq<Tier>, players: seq<Player>, awardPast: bool, c: Claim)
    ensures var r := ScanPlayers(db, tiers, players, awardPast);
            r.Some? ==>
            && (c in r.value.seen ==> c in db.seen || (c !in db.claims && SawIn(tiers, players, c)))
            && (Payable(r.value, c) ==>
                  || Payable(db, c)
                  || (c !in db.claims && MetIn(tiers, players, c)
                      && (awardPast || c in db.seen || SawIn(tiers, players, c))))
    decreases players
  {
    hide ScanOpen, OpenTiers, SawIn, MetIn, Payable, FetchFails;
    if players != [] {
      var p, rest := players[0], players[1..];
      var open := OpenTiers(tiers, db.claims, p.account);
      var mid := ScanOpen(db, open, p, db.seen, awardPast);
      ScanOpenProvenance(db, open, p, db.seen, awardPast, c);
      OpenIsListed(db, tiers, players, c);
      ScanProvenance(mid, tiers, rest, awardPast, c);
      MoreListed(tiers, players, c);
      NotPayable(mid, c);
    }
  }

  /** What the first player's open tiers show, the whole list shows, of a claim not made yet. */
  lemma OpenIsListed(db: Db, tiers: seq<Tier>, players: seq<Player>, c: Claim)
    requires players != []
    ensures var open := OpenTiers(tiers, db.claims, players[0].account);
            && (SawIn(open, [players[0]], c) ==> c !in db.claims && SawIn(tiers, players, c))
            && (MetIn(open, [players[0]], c) ==> MetIn(tiers, players, c))
  {
    OpenTiersListed(tiers, db.claims, players[0].account);
    hide OpenTiers, Satisfied;
    assert players[0] in players;
  }

  lemma MoreListed(tiers: seq<Tier>, players: seq<Player>, c: Claim)
    requires players != []
    ensures SawIn(tiers, players[1..], c) ==> SawIn(tiers, players, c)
    ensures MetIn(tiers, players[1..], c) ==> MetIn(tiers, players, c)
  {
    hide Satisfied;
    assert forall p | p in players[1..] :: p in players;
  }

  lemma NotPayable(db: Db, c: Claim)
    ensures c !in db.claims ==> !Payable(db, c)
  {
  }

  /** Delivery moves claims from earned to granted and touches no seen marker. */
  lemma DeliverKeepsPayable(pub: Publisher, db: Db, t: Tier, account: Account, now: int, c: Claim)
    ensures var after := DeliverGrant(pub, db, t, account, now).0;
            after.seen == db.seen && (Payable(after, c) <==> Payable(db, c))
  {
    hide GiveItems;
  }

  lemma {:induction false} DeliverDueKeepsPayable(pub: Publisher, db: Db, order: seq<Claim>, due: set<Claim>,
                                                  tiers: seq<Tier>,
                                                  players: seq<Player>, now: int, c: Claim)
    ensures var after := DeliverDue(pub, db, order, due, tiers, players, now);
            after.seen == db.seen && (Payable(after, c) <==> Payable(db, c))
    decreases order
  {
    hide DeliverGrant, Payable;
    if order != [] {
      var t := FindTier(tiers, order[0].0);
      if t.Some? {
        DeliverKeepsPayable(pub, db, t.value, order[0].1, now, c);
        DeliverDueKeepsPayable(pub, DeliverGrant(pub, db, t.value, order[0].1, now).0, order[1..], due - {order[0]},
                               tiers, players, now, c);
      }
      DeliverDueKeepsPayable(pub, db, order[1..], due - {order[0]}, tiers, players, now, c);
    }
  }

  lemma EnqueueKeepsPayable(db: Db, d: Claim, c: Claim)
    ensures Enqueue(db, d).seen == db.seen && (Payable(Enqueue(db, d), c) <==> Payable(db, c))
  {
  }

  lemma {:induction false} GrantEarnedKeepsPayable(pub: Publisher, db: Db, order: seq<TierKey>, earned: set<TierKey>,
                                                   account: Account, now: int, c: Claim)
    ensures var after := GrantEarned(pub, db, order, earned, account, now);
            after.seen == db.seen && (Payable(after, c) <==> Payable(db, c))
    decreases order
  {
    hide DeliverGrant, Enqueue, Payable;
    if order != [] {
      var t := FindTier(db.tiers, order[0]);
      if t.Some? {
        var queued := Enqueue(db, (order[0], account));
        EnqueueKeepsPayable(db, (order[0], account), c);
        DeliverKeepsPayable(pub, queued, t.value, account, now, c);
        var after := DeliverGrant(pub, queued, t.value, account, now).0;
        GrantEarnedKeepsPayable(pub, after, order[1..], earned - {order[0]}, account, now, c);
      }
      GrantEarnedKeepsPayable(pub, db, order[1..], earned - {order[0]}, account, now, c);
    }
  }

  lemma StepProvenance(pub: Publisher, db: Db, e: Event, c: Claim)
    ensures var after := Step(pub, db, e);
            && (c in after.seen ==> !Purges(e, c.1) && (c in db.seen || SawUnsatisfied(db, e, c)))
            && (Payable(after, c) ==>
                  && !Purges(e, c.1)
                  && (|| Payable(db, c)
                      || (SawSatisfied(db, e, c) && (AwardsPast(e) || c in db.seen || SawUnsatisfied(db, e, c)))))
  {
    match e
    case Tick(cfg, now, force, players, order) =>
      var paced := db.(nextDue := Some(now + cfg.pollSeconds));
      var tiers := EnabledTiers(db.tiers);
      if players.Some? {
        var scanned := ScanPlayers(paced, tiers, players.value, cfg.awardPast);
        ScanProvenance(paced, tiers, players.value, cfg.awardPast, c);
        if scanned.Some? {
          var queued := EnqueueAll(scanned.value, EarnedClaims(scanned.value.claims));
          DeliverDueKeepsPayable(pub, queued, order, DueClaims(queued.ledger, now), tiers, players.value, now, c);
        }
      }
    case ManualGrant(account, fls, keys, at) =>
      GrantEarnedKeepsPayable(pub, db, keys, EarnedKeys(db.claims, account), account, at, c);
    case _ =>
  }

  ghost predicate NoPurgeAfter(es: seq<Event>, i: nat, account: Account) {
    forall j | i < j < |es| :: !Purges(es[j], account)
  }

  /** Event i was a tick that saw the tier unsatisfied, with no claim there yet. */
  ghost predicate Watched(pub: Publisher, es: seq<Event>, i: nat, c: Claim) {
    i < |es| && SawUnsatisfied(Run(pub, es[..i]), es[i], c)
  }

  /** Event j was a tick that saw the tier satisfied, with no claim there yet, and made a
      payable one. */
  ghost predicate Created(pub: Publisher, es: seq<Event>, j: nat, c: Claim) {
    j < |es| && SawSatisfied(Run(pub, es[..j]), es[j], c) && Payable(Step(pub, Run(pub, es[..j]), es[j]), c)
  }

  ghost predicate WatchedBy(pub: Publisher, es: seq<Event>, j: nat, c: Claim) {
    exists i: nat :: i <= j && Watched(pub, es, i, c) && NoPurgeAfter(es, i, c.1)
  }

  /** Since the last purge covering the account, the claim was created by a tick with
      award_past on, or after a tick that had watched the tier unsatisfied. */
  ghost predicate Justified(pub: Publisher, es: seq<Event>, c: Claim) {
    exists j: nat | j < |es| ::
      Created(pub, es, j, c) && NoPurgeAfter(es, j, c.1) && (AwardsPast(es[j]) || WatchedBy(pub, es, j, c))
  }

  lemma WatchedExtends(pub: Publisher, es: seq<Event>, j: nat, c: Claim)
    requires es != [] && WatchedBy(pub, es[..|es| - 1], j, c) && !Purges(es[|es| - 1], c.1)
    ensures WatchedBy(pub, es, j, c)
  {
    hide Run, SawUnsatisfied, Purges;
    var before := es[..|es| - 1];
    var i: nat :| i <= j && Watched(pub, before, i, c) && NoPurgeAfter(before, i, c.1);
    assert before[..i] == es[..i];
    assert Watched(pub, es, i, c) && NoPurgeAfter(es, i, c.1);
  }

  lemma JustifiedExtends(pub: Publisher, es: seq<Event>, c: Claim)
    requires es != [] && Justified(pub, es[..|es| - 1], c) && !Purges(es[|es| - 1], c.1)
    ensures Justified(pub, es, c)
  {
    hide Run, Step, SawSatisfied, Payable, Purges, WatchedBy;
    var before := es[..|es| - 1];
    var j: nat :| j < |before| && Created(pub, before, j, c) && NoPurgeAfter(before, j, c.1)
                  && (AwardsPast(before[j]) || WatchedBy(pub, before, j, c));
    assert before[..j] == es[..j];
    if WatchedBy(pub, before, j, c) { WatchedExtends(pub, es, j, c); }
    assert Created(pub, es, j, c) && NoPurgeAfter(es, j, c.1);
  }

  /** Behind every seen marker there is, since the last purge covering the account, a tick
      that saw the tier unsatisfied with no claim there yet. */
  lemma {:induction false} SeenWasWatched(pub: Publisher, es: seq<Event>, c: Claim)
    requires c in Run(pub, es).seen
    ensures es != [] && WatchedBy(pub, es, |es| - 1, c)
    decreases |es|
  {
    hide Step, SawUnsatisfied, Purges;
    assert es != [];
    var before, last := es[..|es| - 1], es[|es| - 1];
    StepProvenance(pub, Run(pub, before), last, c);
    if c in Run(pub, before).seen {
      SeenWasWatched(pub, before, c);
      WatchedLater(pub, before, |before| - 1, |es| - 1, c);
      WatchedExtends(pub, es, |es| - 1, c);
    } else {
      assert Watched(pub, es, |es| - 1, c) && NoPurgeAfter(es, |es| - 1, c.1);
    }
  }

  lemma WatchedLater(pub: Publisher, es: seq<Event>, j: nat, k: nat, c: Claim)
    requires j <= k && WatchedBy(pub, es, j, c)
    ensures WatchedBy(pub, es, k, c)
  {
    hide Watched, NoPurgeAfter;
    var i: nat :| i <= j && Watched(pub, es, i, c) && NoPurgeAfter(es, i, c.1);
  }

  /** Real intel is only ever owed for watched progress: every earned or granted claim was
      created, since the last purge covering its account, by a tick that saw its tier
      satisfied, and that tick ran with award_past on or came after one that had seen the
      tier unsatisfied, the claim not being there yet. */
  lemma {:induction false} PayableIsJustified(pub: Publisher, es: seq<Event>, c: Claim)
    requires Payable(Run(pub, es), c)
    ensures Justified(pub, es, c)
    decreases |es|
  {
    hide Step, SawUnsatisfied, SawSatisfied, Purges, WatchedBy;
    assert es != [] by { NothingPayable(pub, c); }
    var before, last, n := es[..|es| - 1], es[|es| - 1], |es| - 1;
    StepProvenance(pub, Run(pub, before), last, c);
    if Payable(Run(pub, before), c) {
      PayableIsJustified(pub, before, c);
      JustifiedExtends(pub, es, c);
    } else {
      assert Created(pub, es, n, c) && NoPurgeAfter(es, n, c.1);
      if c in Run(pub, before).seen {
        SeenWasWatched(pub, before, c);
        WatchedLater(pub, before, n - 1, n, c);
        WatchedExtends(pub, es, n, c);
      } else if !AwardsPast(last) {
        WatchedNow(pub, es, c);
      }
    }
  }

  lemma WatchedNow(pub: Publisher, es: seq<Event>, c: Claim)
    requires es != [] && SawUnsatisfied(Run(pub, es[..|es| - 1]), es[|es| - 1], c)
    ensures WatchedBy(pub, es, |es| - 1, c)
  {
    hide SawUnsatisfied, Run;
    assert Watched(pub, es, |es| - 1, c) && NoPurgeAfter(es, |es| - 1, c.1);
  }

  lemma NothingPayable(pub: Publisher, c: Claim)
    ensures !Payable(Run(pub, []), c) && c !in Run(pub, []).seen
  {
  }

  // --------------------------------------------------- baseline is not payable

  function CallsFor(log: seq<Call>, c: Claim): nat {
    if log == [] then 0 else CallsFor(log[..|log| - 1], c) + if log[|log| - 1].claim == c then 1 else 0
  }

  lemma CallsAppend(log: seq<Call>, call: Call, c: Claim)
    ensures CallsFor(log + [call], c) == CallsFor(log, c) + if call.claim == c then 1 else 0
  {
    assert (log + [call])[..|log|] == log;
  }

  lemma {:induction false} GiveItemsCallsOthers(pub: Publisher, log: seq<Call>, paid: Claim, items: seq<RewardItem>,
                                                c: Claim)
    requires c != paid
    ensures CallsFor(GiveItems(pub, log, paid, items), c) == CallsFor(log, c)
    decreases items
  {
    if items != [] {
      CallsAppend(log, GiveItem(paid, items[0], pub(|log|)), c);
      GiveItemsCallsOthers(pub, log + [GiveItem(paid, items[0], pub(|log|))], paid, items[1..], c);
    }
  }

  ghost predicate HeldAtBaseline(db: Db, after: Db, c: Claim) {
    c in after.claims && after.claims[c] == Baseline && CallsFor(after.log, c) == CallsFor(db.log, c)
  }

  lemma DeliverHoldsBaseline(pub: Publisher, db: Db, t: Tier, account: Account, now: int, c: Claim)
    requires c in db.claims && db.claims[c] == Baseline
    ensures HeldAtBaseline(db, DeliverGrant(pub, db, t, account, now).0, c)
  {
    hide CallsFor, GiveItems;
    var d := (t.key, account);
    if d != c {
      LoggedForOthers(pub, db, t, d, c);
    }
  }

  lemma LoggedForOthers(pub: Publisher, db: Db, t: Tier, d: Claim, c: Claim)
    requires c != d
    ensures var asked := db.log + [AwardIntel(d, t.intel, pub(|db.log|))];
            && CallsFor(asked, c) == CallsFor(db.log, c)
            && CallsFor(GiveItems(pub, asked, d, t.items), c) == CallsFor(db.log, c)
            && CallsFor(GiveItems(pub, db.log, d, t.items), c) == CallsFor(db.log, c)
  {
    var call := AwardIntel(d, t.intel, pub(|db.log|));
    CallsAppend(db.log, call, c);
    GiveItemsCallsOthers(pub, db.log, d, t.items, c);
    GiveItemsCallsOthers(pub, db.log + [call], d, t.items, c);
  }

  lemma {:induction false} DeliverDueHoldsBaseline(pub: Publisher, db: Db, order: seq<Claim>, due: set<Claim>,
                                                   tiers: seq<Tier>,
                                                   players: seq<Player>, now: int, c: Claim)
    requires c in db.claims && db.claims[c] == Baseline
    ensures HeldAtBaseline(db, DeliverDue(pub, db, order, due, tiers, players, now), c)
    decreases order
  {
    if order != [] {
      var t := FindTier(tiers, order[0].0);
      if t.Some? {
        DeliverHoldsBaseline(pub, db, t.value, order[0].1, now, c);
        DeliverDueHoldsBaseline(pub, DeliverGrant(pub, db, t.value, order[0].1, now).0, order[1..], due - {order[0]},
                                tiers, players, now, c);
      }
      DeliverDueHoldsBaseline(pub, db, order[1..], due - {order[0]}, tiers, players, now, c);
    }
  }

  lemma {:induction false} GrantEarnedHoldsBaseline(pub: Publisher, db: Db, order: seq<TierKey>, earned: set<TierKey>,
                                                    account: Account, now: int, c: Claim)
    requires c in db.claims && db.claims[c] == Baseline
    ensures HeldAtBaseline(db, GrantEarned(pub, db, order, earned, account, now), c)
    decreases order
  {
    if order != [] {
      var t := FindTier(db.tiers, order[0]);
      if t.Some? {
        var queued := Enqueue(db, (order[0], account));
        DeliverHoldsBaseline(pub, queued, t.value, account, now, c);
        GrantEarnedHoldsBaseline(pub, DeliverGrant(pub, queued, t.value, account, now).0, order[1..],
                                 earned - {order[0]}, account, now, c);
      }
      GrantEarnedHoldsBaseline(pub, db, order[1..], earned - {order[0]}, account, now, c);
    }
  }

  lemma StepHoldsBaseline(pub: Publisher, db: Db, e: Event, c: Claim)
    requires c in db.claims && db.claims[c] == Baseline && !Purges(e, c.1)
    ensures HeldAtBaseline(db, Step(pub, db, e), c)
  {
    match e
    case Tick(cfg, now, force, players, order) =>
      var paced := db.(nextDue := Some(now + cfg.pollSeconds));
      var tiers := EnabledTiers(db.tiers);
      if players.Some? {
        var scanned := ScanPlayers(paced, tiers, players.value, cfg.awardPast);
        ScanKeepsDelivery(paced, tiers, players.value, cfg.awardPast);
        if scanned.Some? {
          var queued := EnqueueAll(scanned.value, EarnedClaims(scanned.value.claims));
          DeliverDueHoldsBaseline(pub, queued, order, DueClaims(queued.ledger, now), tiers, players.value, now, c);
        }
      }
    case ManualGrant(account, fls, keys, at) =>
      GrantEarnedHoldsBaseline(pub, db, keys, EarnedKeys(db.claims, account), account, at, c);
    case _ =>
  }

  /** A baseline claim stays at baseline, and not even a failed delivery is
      attempted for it, until a purge covers its account. */
  lemma {:induction false} BaselineNeedsPurge(pub: Publisher, es: seq<Event>, i: nat, c: Claim)
    requires i <= |es| && c in Run(pub, es[..i]).claims && Run(pub, es[..i]).claims[c] == Baseline
    requires forall j | i <= j < |es| :: !Purges(es[j], c.1)
    ensures HeldAtBaseline(Run(pub, es[..i]), Run(pub, es), c)
    decreases |es|
  {
    if i == |es| {
      assert es[..i] == es;
    } else {
      var before := es[..|es| - 1];
      assert before[..i] == es[..i];
      BaselineNeedsPurge(pub, before, i, c);
      StepHoldsBaseline(pub, Run(pub, before), es[|es| - 1], c);
    }
  }

  // ----------------------------------------------------------- what a scan does

  /** What the tables hold for one claim. */
  datatype Mark = Mark(claim: Option<ClaimStatus>, seen: bool)

  function MarkAt(db: Db, c: Claim): Mark { Mark(if c in db.claims then Some(db.claims[c]) else None, c in db.seen) }

  /** The decision table applied to one tier and one listed row of an account. */
  function Decide(m: Mark, t: Tier, p: Player, awardPast: bool): Mark {
    if m.claim.Some? then m
    else
      match TierAction(Satisfied(t, p), m.seen, awardPast)
      case MarkSeen => m.(seen := true)
      case MakeBaseline => m.(claim := Some(Baseline))
      case Earn => m.(claim := Some(Earned))
  }

  /** An account may be listed more than once; its rows count in order. */
  function DecideAll(m: Mark, t: Tier, players: seq<Player>, account: Account, awardPast: bool): Mark
    decreases players
  {
    if players == [] then m
    else
      DecideAll(if players[0].account == account then Decide(m, t, players[0], awardPast) else m, t, players[1..],
                account, awardPast)
  }

  /** The rows of the account before the first that meets the tier, and whether one does. */
  function Unmet(t: Tier, players: seq<Player>, account: Account): (nat, bool)
    decreases players
  {
    if players == [] then (0, false)
    else if players[0].account == account && Satisfied(t, players[0]) then (0, true)
    else
      var (n, met) := Unmet(t, players[1..], account);
      (if players[0].account == account then n + 1 else n, met)
  }

  /** In short: an open claim is earned when the tier is met after it was seen unmet, be it
      in an earlier row of this very list, and is a baseline when it is met at first sight. */
  lemma {:induction false} DecidedAtFirstMet(m: Mark, t: Tier, players: seq<Player>, account: Account, awardPast: bool)
    requires m.claim.None?
    ensures var (n, met) := Unmet(t, players, account);
            var seen := m.seen || n > 0;
            DecideAll(m, t, players, account, awardPast) ==
            Mark(if !met then None else Some(if awardPast || seen then Earned else Baseline), seen)
    decreases players
  {
    if players != [] {
      var next := if players[0].account == account then Decide(m, t, players[0], awardPast) else m;
      if next.claim.None? {
        DecidedAtFirstMet(next, t, players[1..], account, awardPast);
      } else {
        ClaimedStays(next, t, players[1..], account, awardPast);
      }
    }
  }

  lemma {:induction false} ClaimedStays(m: Mark, t: Tier, players: seq<Player>, account: Account, awardPast: bool)
    requires m.claim.Some?
    ensures DecideAll(m, t, players, account, awardPast) == m
    decreases players
  {
    if players != [] { ClaimedStays(m, t, players[1..], account, awardPast); }
  }

  ghost predicate Decided(db: Db, after: Db, t: Tier, p: Player, awardPast: bool) {
    MarkAt(after, (t.key, p.account)) == Decide(MarkAt(db, (t.key, p.account)), t, p, awardPast)
  }

  ghost predicate SameAt(db: Db, after: Db, c: Claim) { MarkAt(after, c) == MarkAt(db, c) }

  lemma TierIsPointwise(db: Db, t: Tier, p: Player, seen0: set<Claim>, awardPast: bool)
    requires (t.key, p.account) !in db.claims && ((t.key, p.account) in seen0 <==> (t.key, p.account) in db.seen)
    ensures var after := ScanTier(db, t, p, seen0, awardPast);
            Decided(db, after, t, p, awardPast) && forall c: Claim | c != (t.key, p.account) :: SameAt(db, after, c)
  {
  }

  lemma {:induction false} ScanOpenIsPointwise(db: Db, open: seq<Tier>, p: Player, seen0: set<Claim>, awardPast: bool)
    requires DistinctKeys(open)
    requires forall t | t in open ::
               (t.key, p.account) !in db.claims && ((t.key, p.account) in seen0 <==> (t.key, p.account) in db.seen)
    ensures var after := ScanOpen(db, open, p, seen0, awardPast);
            && (forall t | t in open :: Decided(db, after, t, p, awardPast))
            && (forall c: Claim | c.1 != p.account || (forall t | t in open :: t.key != c.0) :: SameAt(db, after, c))
    decreases open
  {
    hide ScanTier, Decide;
    if open != [] {
      var mid := ScanTier(db, open[0], p, seen0, awardPast);
      var after := ScanOpen(db, open, p, seen0, awardPast);
      TierIsPointwise(db, open[0], p, seen0, awardPast);
      forall t | t in open[1..] ensures (t.key, p.account) !in mid.claims
        && ((t.key, p.account) in seen0 <==> (t.key, p.account) in mid.seen) {
        assert t.key != open[0].key;
        assert SameAt(db, mid, (t.key, p.account));
      }
      ScanOpenIsPointwise(mid, open[1..], p, seen0, awardPast);
      forall t | t in open ensures Decided(db, after, t, p, awardPast) {
        var c := (t.key, p.account);
        if t == open[0] {
          assert forall u | u in open[1..] :: u.key != c.0;
          assert SameAt(mid, after, c);
        } else {
          assert t in open[1..];
          assert Decided(mid, after, t, p, awardPast);
          assert SameAt(db, mid, c);
        }
      }
      forall c: Claim | c.1 != p.account || (forall t | t in open :: t.key != c.0) ensures SameAt(db, after, c) {
        assert open[0] in open;
        assert SameAt(db, mid, c) && SameAt(mid, after, c);
      }
    }
  }

  lemma {:induction false} OpenTiersDistinct(tiers: seq<Tier>, claims: map<Claim, ClaimStatus>, account: Account)
    requires DistinctKeys(tiers)
    ensures DistinctKeys(OpenTiers(tiers, claims, account))
    decreases tiers
  {
    if tiers != [] {
      OpenTiersDistinct(tiers[1..], claims, account);
      OpenTiersListed(tiers[1..], claims, account);
      var rest := OpenTiers(tiers[1..], claims, account);
      forall t | t in rest ensures t.key != tiers[0].key {
        var k :| 0 <= k < |tiers[1..]| && tiers[1..][k] == t;
        assert tiers[k + 1] == t;
      }
    }
  }

  /** One player's rows of the scan: every enabled tier decided, nothing else touched. */
  lemma PlayerIsPointwise(db: Db, tiers: seq<Tier>, p: Player, awardPast: bool)
    requires DistinctKeys(tiers)
    ensures var after := ScanOpen(db, OpenTiers(tiers, db.claims, p.account), p, db.seen, awardPast);
            && (forall t | t in tiers :: Decided(db, after, t, p, awardPast))
            && (forall c: Claim | c.1 != p.account || (forall t | t in tiers :: t.key != c.0) :: SameAt(db, after, c))
  {
    var open := OpenTiers(tiers, db.claims, p.account);
    OpenTiersListed(tiers, db.claims, p.account);
    OpenTiersDistinct(tiers, db.claims, p.account);
    ScanOpenIsPointwise(db, open, p, db.seen, awardPast);
    var after := ScanOpen(db, open, p, db.seen, awardPast);
    forall t | t in tiers ensures Decided(db, after, t, p, awardPast) {
      if (t.key, p.account) in db.claims {
        assert forall u | u in open :: u.key != t.key;
        assert SameAt(db, after, (t.key, p.account));
      }
    }
  }

  /** The two nested scan loops are the decision table applied, for every enabled tier and
      every account, to the rows listed for the account in order, and to nothing else. */
  lemma {:induction false} ScanIsPointwise(db: Db, tiers: seq<Tier>, players: seq<Player>, awardPast: bool)
    requires DistinctKeys(tiers)
    requires ScanPlayers(db, tiers, players, awardPast).Some?
    ensures var after := ScanPlayers(db, tiers, players, awardPast).value;
            && (forall t, account | t in tiers ::
                  MarkAt(after, (t.key, account)) ==
                      DecideAll(MarkAt(db, (t.key, account)), t, players, account, awardPast))
            && (forall c: Claim | (forall t | t in tiers :: t.key != c.0) :: SameAt(db, after, c))
    decreases players
  {
    hide Decide, ScanOpen, MarkAt;
    if players != [] {
      var mid := ScanOpen(db, OpenTiers(tiers, db.claims, players[0].account), players[0], db.seen, awardPast);
      PlayerIsPointwise(db, tiers, players[0], awardPast);
      ScanIsPointwise(mid, tiers, players[1..], awardPast);
      var after := ScanPlayers(db, tiers, players, awardPast).value;
      forall t, account | t in tiers
        ensures MarkAt(after, (t.key, account)) == DecideAll(MarkAt(db, (t.key, account)), t, players, account,
                                                             awardPast)
      {
        var c := (t.key, account);
        assert if players[0].account == account then Decided(db, mid, t, players[0], awardPast) else SameAt(db, mid, c);
        assert MarkAt(after, c) == DecideAll(MarkAt(mid, c), t, players[1..], account, awardPast);
      }
      forall c: Claim | (forall t | t in tiers :: t.key != c.0) ensures SameAt(db, after, c) {
        assert SameAt(db, mid, c) && SameAt(mid, after, c);
      }
    }
  }

  // ----------------------------------------------------- what a grant pass pays

  /** A claim the pass can deliver: due, with an enabled tier and a resolvable player. */
  ghost predicate Deliverable(db: Db, tiers: seq<Tier>, players: seq<Player>, c: Claim) {
    && c in db.ledger && db.ledger[c].status == Pending
    && c in db.claims && db.claims[c] == Earned
    && FindTier(tiers, c.0).Some?
    && FindPlayer(players, c.1).Some? && FindPlayer(players, c.1).value.fls != ""
  }

  /** With a publisher that answers 0, every deliverable due claim the pass
      reaches is paid under its tier: granted, sealed and recorded. */
  lemma {:induction false} DuePassPays(pub: Publisher, db: Db, order: seq<Claim>, due: set<Claim>, tiers: seq<Tier>,
                                       players: seq<Player>, now: int, c: Claim)
    requires forall n: nat :: pub(n) == 0
    requires c in order && c in due && Deliverable(db, tiers, players, c)
    ensures var after := DeliverDue(pub, db, order, due, tiers, players, now);
            && c in after.claims && after.claims[c] == Granted
            && c in after.ledger && after.ledger[c].status == Sealed
            && c in after.delivered && after.delivered[c] == FindTier(tiers, c.0).value
    decreases order
  {
    var d := order[0];
    var t := FindTier(tiers, d.0);
    var p := FindPlayer(players, d.1);
    FoundTierHasKey(tiers, d.0);
    if d == c {
      PaidStaysPaid(pub, DeliverGrant(pub, db, t.value, d.1, now).0, order[1..], due - {d}, tiers, players, now, c);
    } else {
      assert c in order[1..];
      if d !in due || t.None? || p.None? || p.value.fls == "" {
        DuePassPays(pub, db, order[1..], due - {d}, tiers, players, now, c);
      } else {
        var mid := DeliverGrant(pub, db, t.value, d.1, now).0;
        assert Deliverable(mid, tiers, players, c);
        DuePassPays(pub, mid, order[1..], due - {d}, tiers, players, now, c);
      }
    }
  }

  lemma {:induction false} PaidStaysPaid(pub: Publisher, db: Db, order: seq<Claim>, due: set<Claim>, tiers: seq<Tier>,
                                         players: seq<Player>, now: int, c: Claim)
    requires c in db.ledger && db.ledger[c].status == Sealed && c in db.claims && db.claims[c] == Granted
             && c in db.delivered
    ensures var after := DeliverDue(pub, db, order, due, tiers, players, now);
            && c in after.ledger && after.ledger[c].status == Sealed && c in after.claims && after.claims[c] == Granted
            && c in after.delivered && after.delivered[c] == db.delivered[c]
    decreases order
  {
    if order != [] {
      var t := FindTier(tiers, order[0].0);
      if t.Some? {
        PaidStaysPaid(pub, DeliverGrant(pub, db, t.value, order[0].1, now).0, order[1..], due - {order[0]}, tiers,
                      players, now, c);
      }
      PaidStaysPaid(pub, db, order[1..], due - {order[0]}, tiers, players, now, c);
    }
  }

  /** A full tick with auto-grant on and an obliging publisher leaves no earned
      claim unpaid when its tier is enabled, its account is tracked with a name
      to send to, and no back-off holds its row. */
  lemma TickPaysEveryEarnedClaim(pub: Publisher, db: Db, cfg: Config, now: int, force: bool, players: seq<Player>,
                                 order: seq<Claim>, c: Claim)
    requires Inv(db) && forall n: nat :: pub(n) == 0
    requires Runs(db, cfg, now, force) && cfg.autoGrant
    requires var s := ScanPlayers(db.(nextDue := Some(now + cfg.pollSeconds)), EnabledTiers(db.tiers), players,
                                  cfg.awardPast);
             s.Some? && c in s.value.claims && s.value.claims[c] == Earned
    requires c in order && now >= 0
    requires c in db.ledger ==> IsDue(db.ledger[c], now)
    requires FindTier(EnabledTiers(db.tiers), c.0).Some?
    requires FindPlayer(players, c.1).Some? && FindPlayer(players, c.1).value.fls != ""
    ensures var after := RunTick(pub, db, cfg, now, force, Some(players), order);
            && c in after.claims && after.claims[c] == Granted
            && PaidUnder(after.log, c, FindTier(EnabledTiers(db.tiers), c.0).value)
  {
    hide GrantPass, ScanPlayers, FindTier, FindPlayer, EnabledTiers, IsDue, PaidUnder;
    var paced := db.(nextDue := Some(now + cfg.pollSeconds));
    var tiers := EnabledTiers(db.tiers);
    assert tiers != [] by { FoundTierHasKey(tiers, c.0); }
    ScanKeepsDelivery(paced, tiers, players, cfg.awardPast);
    var scanned := ScanPlayers(paced, tiers, players, cfg.awardPast).value;
    PassPaysQueued(pub, scanned, order, tiers, players, now, c);
    RunTickKeepsInv(pub, db, cfg, now, force, Some(players), order);
    assert BooksBalance(RunTick(pub, db, cfg, now, force, Some(players), order), c);
  }

  lemma PassPaysQueued(pub: Publisher, scanned: Db, order: seq<Claim>, tiers: seq<Tier>, players: seq<Player>,
                       now: int, c: Claim)
    requires (forall n: nat :: pub(n) == 0) && c in order && now >= 0
    requires c in scanned.claims && scanned.claims[c] == Earned
    requires c in scanned.ledger ==> IsDue(scanned.ledger[c], now)
    requires FindTier(tiers, c.0).Some?
    requires FindPlayer(players, c.1).Some? && FindPlayer(players, c.1).value.fls != ""
    ensures var after := GrantPass(pub, scanned, order, tiers, players, now);
            && c in after.claims && after.claims[c] == Granted
            && c in after.delivered && after.delivered[c] == FindTier(tiers, c.0).value
  {
    var queued := EnqueueAll(scanned, EarnedClaims(scanned.claims));
    assert Deliverable(queued, tiers, players, c);
    DuePassPays(pub, queued, order, DueClaims(queued.ledger, now), tiers, players, now, c);
  }
}
