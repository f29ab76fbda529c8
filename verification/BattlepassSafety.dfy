/** What every run of the battlepass keeps: a claim is paid at most once and in
    full, the three tables agree, and only watched progress becomes payable. */
module BattlepassSafety {
  import opened Wrappers
  import opened Battlepass

  datatype Event =
    | Tick(cfg: Config, now: int, force: bool, players: Option<seq<Player>>, order: seq<Claim>)
    | ManualGrant(account: Account, fls: Option<string>, keys: seq<TierKey>, at: int)
    | Reset(mode: ResetMode, scope: Account)
    | Reseed(tiers: seq<Tier>)
    | Seed(catalog: seq<Tier>)
    | EditTier(id: int, edited: Tier)

  function Step(pub: Publisher, db: Db, e: Event): Db {
    match e
    case Tick(cfg, now, force, players, order) => RunTick(pub, db, cfg, now, force, players, order)
    case ManualGrant(account, fls, keys, at) => GrantAccount(pub, db, account, fls, keys, at)
    case Reset(mode, scope) => ResetClaims(db, mode, scope)
    case Reseed(tiers) => ReseedTiers(db, tiers)
    case Seed(catalog) => SeedIfEmpty(db, catalog)
    case EditTier(id, edited) => UpdateTier(db, id, edited)
  }

  const EMPTY := Db([], 1, map[], {}, map[], None, [], map[])

  function Run(pub: Publisher, es: seq<Event>): Db {
    if es == [] then EMPTY else Step(pub, Run(pub, es[..|es| - 1]), es[|es| - 1])
  }

  // ------------------------------------------------------- what was paid out

  /** The amounts of the successful award-intel calls made for one claim. */
  function IntelPaid(log: seq<Call>, c: Claim): seq<int> {
    if log == [] then []
    else
      var last := log[|log| - 1];
      IntelPaid(log[..|log| - 1], c) + if last.AwardIntel? && last.claim == c && last.rc == 0 then [last.amount] else []
  }

  /** The items handed over for one claim, in the order of the calls. */
  function ItemsGiven(log: seq<Call>, c: Claim): seq<RewardItem> {
    if log == [] then []
    else
      var last := log[|log| - 1];
      ItemsGiven(log[..|log| - 1], c) + if last.GiveItem? && last.claim == c then [last.item] else []
  }

  /** What a tier owes: its intel once when it has any, and each of its items once. */
  function IntelOwed(t: Tier): seq<int> { if t.intel > 0 then [t.intel] else [] }

  predicate PaidUnder(log: seq<Call>, c: Claim, t: Tier) {
    t.key == c.0 && IntelPaid(log, c) == IntelOwed(t) && ItemsGiven(log, c) == t.items
  }

  predicate Unpaid(log: seq<Call>, c: Claim) {
    IntelPaid(log, c) == [] && ItemsGiven(log, c) == []
  }

  // ------------------------------------------------------------- invariant

  /** How the tables agree on one claim. */
  ghost predicate RowsAgree(db: Db, c: Claim) {
    && (c in db.ledger && db.ledger[c].status != Sealed ==>
          && c in db.claims && db.claims[c] == Earned
          && c !in db.delivered)
    && (c in db.ledger && db.ledger[c].status == Pending ==> db.ledger[c].attempts < MAX_ATTEMPTS)
    && (c in db.delivered <==> c in db.ledger && db.ledger[c].status == Sealed)
    && (c in db.claims && db.claims[c] == Granted ==> c in db.delivered)
  }

  ghost predicate BooksBalance(db: Db, c: Claim) {
    if c in db.delivered then PaidUnder(db.log, c, db.delivered[c]) else Unpaid(db.log, c)
  }

  ghost predicate Inv(db: Db) {
    && DistinctKeys(db.tiers)
    && (forall c: Claim :: RowsAgree(db, c))
    && (forall c: Claim :: BooksBalance(db, c))
  }

  lemma LogAppend(log: seq<Call>, call: Call, c: Claim)
    ensures IntelPaid(log + [call], c) == IntelPaid(log, c) + if call.AwardIntel? && call.claim == c
            && call.rc == 0 then [call.amount] else []
    ensures ItemsGiven(log + [call], c) == ItemsGiven(log, c) + if call.GiveItem? && call.claim == c then [call.item]
            else []
  {
    assert (log + [call])[..|log|] == log;
  }

  lemma {:induction false} GiveItemsPays(pub: Publisher, log: seq<Call>, paid: Claim, items: seq<RewardItem>, c: Claim)
    ensures IntelPaid(GiveItems(pub, log, paid, items), c) == IntelPaid(log, c)
    ensures ItemsGiven(GiveItems(pub, log, paid, items), c) == ItemsGiven(log, c) + if c == paid then items else []
    decreases items
  {
    if items != [] {
      var call := GiveItem(paid, items[0], pub(|log|));
      LogAppend(log, call, c);
      GiveItemsPays(pub, log + [call], paid, items[1..], c);
      assert items == [items[0]] + items[1..];
    }
  }

  // ---------------------------------------------------------------- scanning

  lemma ScanTierKeepsInv(db: Db, t: Tier, p: Player, seen0: set<Claim>, awardPast: bool)
    requires Inv(db)
    ensures Inv(ScanTier(db, t, p, seen0, awardPast))
  {
    var after := ScanTier(db, t, p, seen0, awardPast);
    forall c: Claim ensures RowsAgree(after, c) && BooksBalance(after, c) {
      assert RowsAgree(db, c) && BooksBalance(db, c);
    }
  }

  lemma {:induction false} ScanOpenKeepsInv(db: Db, open: seq<Tier>, p: Player, seen0: set<Claim>, awardPast: bool)
    requires Inv(db)
    ensures Inv(ScanOpen(db, open, p, seen0, awardPast))
    decreases open
  {
    if open != [] {
      ScanTierKeepsInv(db, open[0], p, seen0, awardPast);
      ScanOpenKeepsInv(ScanTier(db, open[0], p, seen0, awardPast), open[1..], p, seen0, awardPast);
    }
  }

  lemma {:induction false} ScanPlayersKeepsInv(db: Db, tiers: seq<Tier>, players: seq<Player>, awardPast: bool)
    requires Inv(db)
    ensures var r := ScanPlayers(db, tiers, players, awardPast); r.Some? ==> Inv(r.value)
    decreases players
  {
    if players != [] {
      var open := OpenTiers(tiers, db.claims, players[0].account);
      ScanOpenKeepsInv(db, open, players[0], db.seen, awardPast);
      ScanPlayersKeepsInv(ScanOpen(db, open, players[0], db.seen, awardPast), tiers, players[1..], awardPast);
    }
  }

  // ---------------------------------------------------------------- delivery

  lemma EnqueueAllKeepsInv(db: Db)
    requires Inv(db)
    ensures Inv(EnqueueAll(db, EarnedClaims(db.claims)))
  {
    var after := EnqueueAll(db, EarnedClaims(db.claims));
    forall c: Claim ensures RowsAgree(after, c) && BooksBalance(after, c) {
      assert RowsAgree(db, c) && BooksBalance(db, c);
    }
  }

  lemma EnqueueKeepsInv(db: Db, c: Claim)
    requires Inv(db)
    requires c in db.ledger || (c in db.claims && db.claims[c] == Earned)
    ensures Inv(Enqueue(db, c))
  {
    var after := Enqueue(db, c);
    forall d: Claim ensures RowsAgree(after, d) && BooksBalance(after, d) {
      assert RowsAgree(db, d) && BooksBalance(db, d);
    }
  }

  /** A row that reaches delivery is sealed already or backs an earned claim, so
      the branch that seals a raced row is never taken. */
  lemma RacedBranchIsDead(db: Db, c: Claim)
    requires Inv(db) && c in db.ledger
    ensures db.ledger[c].status == Sealed || (c in db.claims && db.claims[c] == Earned && c !in db.delivered)
  {
    assert RowsAgree(db, c);
  }

  lemma AskedKeepsBooks(db: Db, asked: Db, t: Tier, c: Claim, rc: int)
    requires Inv(db) && t.intel > 0 && rc != 0
    requires asked == db.(log := db.log + [AwardIntel(c, t.intel, rc)])
    ensures Inv(asked)
  {
    forall d: Claim ensures RowsAgree(asked, d) && BooksBalance(asked, d) {
      assert RowsAgree(db, d) && BooksBalance(db, d);
      LogAppend(db.log, AwardIntel(c, t.intel, rc), d);
    }
  }

  lemma SealKeepsInv(pub: Publisher, db: Db, t: Tier, c: Claim)
    requires Inv(db) && c in db.ledger && c in db.claims && db.claims[c] == Earned && c !in db.delivered && t.key == c.0
    ensures var rc := pub(|db.log|);
            var asked := if t.intel > 0 then db.(log := db.log + [AwardIntel(c, t.intel, rc)]) else db;
            t.intel <= 0 || rc == 0 ==> Inv(Seal(pub, asked, c, t))
  {
    var rc := pub(|db.log|);
    var asked := if t.intel > 0 then db.(log := db.log + [AwardIntel(c, t.intel, rc)]) else db;
    if t.intel <= 0 || rc == 0 {
      var after := Seal(pub, asked, c, t);
      forall d: Claim ensures RowsAgree(after, d) && BooksBalance(after, d) {
        assert RowsAgree(db, d) && BooksBalance(db, d);
        LogAppend(db.log, AwardIntel(c, t.intel, rc), d);
        GiveItemsPays(pub, asked.log, c, t.items, d);
      }
    }
  }

  lemma RowUpdateKeepsInv(db: Db, c: Claim, row: GrantRow)
    requires Inv(db) && c in db.ledger && db.ledger[c].status != Sealed
    requires row.status != Sealed && (row.status == Pending ==> row.attempts < MAX_ATTEMPTS)
    ensures Inv(db.(ledger := db.ledger[c := row]))
  {
    var after := db.(ledger := db.ledger[c := row]);
    forall d: Claim ensures RowsAgree(after, d) && BooksBalance(after, d) {
      assert RowsAgree(db, d) && BooksBalance(db, d);
    }
  }

  lemma DeliverKeepsInv(pub: Publisher, db: Db, t: Tier, account: Account, now: int)
    requires Inv(db) && (t.key, account) in db.ledger
    ensures Inv(DeliverGrant(pub, db, t, account, now).0)
  {
    var c := (t.key, account);
    RacedBranchIsDead(db, c);
    assert RowsAgree(db, c);
    if db.ledger[c].status != Sealed {
      var rc := pub(|db.log|);
      if t.intel > 0 && rc != 0 {
        var asked := db.(log := db.log + [AwardIntel(c, t.intel, rc)]);
        AskedKeepsBooks(db, asked, t, c, rc);
        if rc == RC_PLAYER_ONLINE {
          RowUpdateKeepsInv(asked, c, db.ledger[c].(nextAttemptAt := now + ONLINE_RETRY_SECS));
        } else {
          var n := db.ledger[c].attempts + 1;
          RowUpdateKeepsInv(asked, c, GrantRow(if n >= MAX_ATTEMPTS then Exhausted else Pending, n,
                                               now + RETRY_BACKOFF_SECS));
        }
      } else {
        SealKeepsInv(pub, db, t, c);
      }
    }
  }

  lemma {:induction false} FoundTierHasKey(tiers: seq<Tier>, key: TierKey)
    ensures var t := FindTier(tiers, key); t.Some? ==> t.value in tiers && t.value.key == key
    decreases |tiers|
  {
    if tiers != [] { FoundTierHasKey(tiers[..|tiers| - 1], key); }
  }

  lemma DeliverKeepsRows(pub: Publisher, db: Db, t: Tier, account: Account, now: int)
    requires (t.key, account) in db.ledger
    ensures DeliverGrant(pub, db, t, account, now).0.ledger.Keys == db.ledger.Keys
  {}

  lemma {:induction false} DeliverDueKeepsInv(pub: Publisher, db: Db, order: seq<Claim>, due: set<Claim>,
                                              tiers: seq<Tier>,
                                              players: seq<Player>, now: int)
    requires Inv(db) && due <= db.ledger.Keys
    ensures Inv(DeliverDue(pub, db, order, due, tiers, players, now))
    decreases order
  {
    if order != [] {
      var c := order[0];
      var t := FindTier(tiers, c.0);
      FoundTierHasKey(tiers, c.0);
      var p := FindPlayer(players, c.1);
      if c !in due || t.None? || p.None? || p.value.fls == "" {
        DeliverDueKeepsInv(pub, db, order[1..], due - {c}, tiers, players, now);
      } else {
        DeliverKeepsInv(pub, db, t.value, c.1, now);
        DeliverKeepsRows(pub, db, t.value, c.1, now);
        DeliverDueKeepsInv(pub, DeliverGrant(pub, db, t.value, c.1, now).0, order[1..], due - {c}, tiers, players, now);
      }
    }
  }

  lemma DeliverTouchesOnlyItsClaim(pub: Publisher, db: Db, t: Tier, account: Account, now: int, d: Claim)
    requires d != (t.key, account)
    ensures var after := DeliverGrant(pub, db, t, account, now).0;
            && (d in after.claims <==> d in db.claims) && (d in db.claims ==> after.claims[d] == db.claims[d])
            && after.seen == db.seen && after.tiers == db.tiers
  {}

  lemma {:induction false} GrantEarnedKeepsInv(pub: Publisher, db: Db, order: seq<TierKey>, earned: set<TierKey>,
                                               account: Account, now: int)
    requires Inv(db)
    requires forall k | k in earned :: (k, account) in db.claims && db.claims[(k, account)] == Earned
    ensures Inv(GrantEarned(pub, db, order, earned, account, now))
    decreases order
  {
    if order != [] {
      var key := order[0];
      var t := FindTier(db.tiers, key);
      FoundTierHasKey(db.tiers, key);
      if key !in earned || t.None? {
        GrantEarnedKeepsInv(pub, db, order[1..], earned - {key}, account, now);
      } else {
        var queued := Enqueue(db, (key, account));
        EnqueueKeepsInv(db, (key, account));
        DeliverKeepsInv(pub, queued, t.value, account, now);
        var (after, outcome) := DeliverGrant(pub, queued, t.value, account, now);
        if outcome != RetryLater {
          forall k | k in earned - {key} ensures (k, account) in after.claims && after.claims[(k, account)] == Earned {
            DeliverTouchesOnlyItsClaim(pub, queued, t.value, account, now, (k, account));
          }
          GrantEarnedKeepsInv(pub, after, order[1..], earned - {key}, account, now);
        }
      }
    }
  }

  // ------------------------------------------------------------- every step

  lemma RunTickKeepsInv(pub: Publisher, db: Db, cfg: Config, now: int, force: bool, players: Option<seq<Player>>,
                        order: seq<Claim>)
    requires Inv(db)
    ensures Inv(RunTick(pub, db, cfg, now, force, players, order))
  {
    var paced := db.(nextDue := Some(now + cfg.pollSeconds));
    forall c: Claim ensures RowsAgree(paced, c) && BooksBalance(paced, c) {
      assert RowsAgree(db, c) && BooksBalance(db, c);
    }
    var tiers := EnabledTiers(db.tiers);
    if players.Some? {
      ScanPlayersKeepsInv(paced, tiers, players.value, cfg.awardPast);
      var scanned := ScanPlayers(paced, tiers, players.value, cfg.awardPast);
      if scanned.Some? {
        EnqueueAllKeepsInv(scanned.value);
        var queued := EnqueueAll(scanned.value, EarnedClaims(scanned.value.claims));
        DeliverDueKeepsInv(pub, queued, order, DueClaims(queued.ledger, now), tiers, players.value, now);
      }
    }
  }

  lemma ResetKeepsInv(db: Db, mode: ResetMode, account: Account)
    requires Inv(db)
    ensures Inv(ResetClaims(db, mode, account))
  {
    var after := ResetClaims(db, mode, account);
    forall c: Claim ensures RowsAgree(after, c) && BooksBalance(after, c) {
      assert RowsAgree(db, c) && BooksBalance(db, c);
    }
  }

  lemma TierTableKeepsInv(db: Db, after: Db)
    requires Inv(db) && DistinctKeys(after.tiers)
    requires after == db.(tiers := after.tiers, nextId := after.nextId)
    ensures Inv(after)
  {
    forall c: Claim ensures RowsAgree(after, c) && BooksBalance(after, c) {
      assert RowsAgree(db, c) && BooksBalance(db, c);
    }
  }

  lemma StepKeepsInv(pub: Publisher, db: Db, e: Event)
    requires Inv(db)
    ensures Inv(Step(pub, db, e))
  {
    match e
    case Tick(cfg, now, force, players, order) => RunTickKeepsInv(pub, db, cfg, now, force, players, order);
    case ManualGrant(account, fls, keys, at) => GrantEarnedKeepsInv(pub, db, keys, EarnedKeys(db.claims, account),
                                                                    account, at);
    case Reset(mode, scope) => ResetKeepsInv(db, mode, scope);
    case Reseed(tiers) => TierTableKeepsInv(db, Step(pub, db, e));
    case Seed(catalog) => TierTableKeepsInv(db, Step(pub, db, e));
    case EditTier(id, edited) => TierTableKeepsInv(db, Step(pub, db, e));
  }

  lemma {:induction false} RunKeepsInv(pub: Publisher, es: seq<Event>)
    ensures Inv(Run(pub, es))
    decreases |es|
  {
    if es == [] {
      forall c: Claim ensures RowsAgree(EMPTY, c) && BooksBalance(EMPTY, c) {}
    } else {
      RunKeepsInv(pub, es[..|es| - 1]);
      StepKeepsInv(pub, Run(pub, es[..|es| - 1]), es[|es| - 1]);
    }
  }
}
