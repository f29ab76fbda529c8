/** The battlepass database as the engine drives it: one object whose methods
    update the tables step by step. Every method is tied to the function on `Db`
    of the same name, which is what the safety theorems are about. */
module BattlepassStore {
  import opened Wrappers
  import opened Battlepass

  /** What an edit of one tier answers: no row of that id, a merged row that is refused, or done. */
  datatype Edit = NoSuchTier | Refused | Edited

  class Store {
    var tiers: seq<Tier>
    var nextId: int
    var claims: map<Claim, ClaimStatus>
    var seen: set<Claim>
    var ledger: map<Claim, GrantRow>
    var nextDue: Option<int>
    var log: seq<Call>
    ghost var delivered: map<Claim, Tier>

    ghost function Abs(): Db
      reads this
    {
      Db(tiers, nextId, claims, seen, ledger, nextDue, log, delivered)
    }

    constructor ()
      ensures Abs() == Db([], 1, map[], {}, map[], None, [], map[])
    {
      tiers, nextId, claims, seen, ledger, nextDue, log := [], 1, map[], {}, map[], None, [];
      delivered := map[];
    }

    method RecordClaim(c: Claim, status: ClaimStatus)
      modifies this`claims
      ensures Abs() == Battlepass.RecordClaim(old(Abs()), c, status)
    {
      if c !in claims {
        claims := claims[c := status];
      }
    }

    /** The scan of one player. False when a signal query it needs fails. */
    method ScanPlayer(enabled: seq<Tier>, p: Player, awardPast: bool) returns (ok: bool)
      modifies this`claims, this`seen
      ensures ok == !FetchFails(OpenTiers(enabled, old(claims), p.account), p)
      ensures Abs() == if ok then ScanOpen(old(Abs()), OpenTiers(enabled, old(claims), p.account), p, old(seen),
                                           awardPast) else old(Abs())
    {
      var open := OpenTiers(enabled, claims, p.account);
      if FetchFails(open, p) {
        return false;
      }
      var seen0 := seen;
      for i := 0 to |open|
        invariant nextId == old(nextId) && tiers == old(tiers) && ledger == old(ledger) && nextDue == old(nextDue)
        invariant log == old(log) && delivered == old(delivered)
        invariant ScanOpen(Abs(), open[i..], p, seen0, awardPast) == ScanOpen(old(Abs()), open, p, seen0, awardPast)
      {
        var t := open[i];
        var c := (t.key, p.account);
        match TierAction(Satisfied(t, p), c in seen0, awardPast) {
          case MarkSeen => seen := seen + {c};
          case MakeBaseline => RecordClaim(c, Baseline);
          case Earn => RecordClaim(c, Earned);
        }
      }
      ok := true;
    }

    /** One ledger row, in the money-safe order. */
    method DeliverGrant(pub: Publisher, t: Tier, account: Account, now: int) returns (outcome: Outcome)
      modifies this`claims, this`ledger, this`log, this`delivered
      ensures (Abs(), outcome) == Battlepass.DeliverGrant(pub, old(Abs()), t, account, now)
    {
      var c := (t.key, account);
      if c in ledger && ledger[c].status == Sealed {
        return Skipped;
      }
      if c !in claims || claims[c] != Earned {
        if c in ledger {
          ledger := ledger[c := ledger[c].(status := Sealed)];
        }
        return Skipped;
      }
      if t.intel > 0 {
        var rc := pub(|log|);
        log := log + [AwardIntel(c, t.intel, rc)];
        if rc == RC_PLAYER_ONLINE {
          if c in ledger {
            ledger := ledger[c := ledger[c].(nextAttemptAt := now + ONLINE_RETRY_SECS)];
          }
          return RetryLater;
        }
        if rc != 0 {
          if c in ledger {
            var n := ledger[c].attempts + 1;
            ledger := ledger[c := GrantRow(if n >= MAX_ATTEMPTS then Exhausted else Pending, n,
                                           now + RETRY_BACKOFF_SECS)];
          }
          return Failed;
        }
      }
      claims := claims[c := Granted];
      if c in ledger {
        ledger := ledger[c := ledger[c].(status := Sealed)];
      }
      delivered := delivered[c := t];
      ghost var before := log;
      for i := 0 to |t.items|
        modifies this`log
        invariant GiveItems(pub, log, c, t.items[i..]) == GiveItems(pub, before, c, t.items)
      {
        log := log + [GiveItem(c, t.items[i], pub(|log|))];
      }
      return Delivered;
    }

    method EnqueueEarned()
      modifies this`ledger
      ensures Abs() == EnqueueAll(old(Abs()), EarnedClaims(claims))
    {
      var todo := EarnedClaims(claims);
      ghost var done: set<Claim> := {};
      while todo != {}
        invariant done + todo == EarnedClaims(claims) && done !! todo
        invariant ledger == EnqueueAll(old(Abs()), done).ledger
        decreases todo
      {
        var c :| c in todo;
        if c !in ledger {
          ledger := ledger[c := GrantRow(Pending, 0, 0)];
        }
        todo, done := todo - {c}, done + {c};
      }
    }

    method DeliverDue(pub: Publisher, order: seq<Claim>, enabled: seq<Tier>, players: seq<Player>, now: int)
      modifies this`claims, this`ledger, this`log, this`delivered
      ensures Abs() == Battlepass.DeliverDue(pub, old(Abs()), order, DueClaims(old(ledger), now), enabled, players, now)
    {
      var due := DueClaims(ledger, now);
      ghost var due0 := due;
      for i := 0 to |order|
        invariant nextId == old(nextId) && tiers == old(tiers) && nextDue == old(nextDue) && seen == old(seen)
        invariant Battlepass.DeliverDue(pub, Abs(), order[i..], due, enabled, players, now)
               == Battlepass.DeliverDue(pub, old(Abs()), order, due0, enabled, players, now)
      {
        var c := order[i];
        var t := FindTier(enabled, c.0);
        var p := FindPlayer(players, c.1);
        if c in due && t.Some? && p.Some? && p.value.fls != "" {
          var _ := DeliverGrant(pub, t.value, c.1, now);
        }
        due := due - {c};
      }
    }

    /** The scan of every player, up to the first whose fetch fails. */
    method Scan(enabled: seq<Tier>, players: seq<Player>, awardPast: bool) returns (ok: bool)
      modifies this`claims, this`seen
      ensures ok == ScanPlayers(old(Abs()), enabled, players, awardPast).Some?
      ensures ok ==> ScanPlayers(old(Abs()), enabled, players, awardPast) == Some(Abs())
    {
      for i := 0 to |players|
        invariant nextId == old(nextId) && tiers == old(tiers) && ledger == old(ledger) && nextDue == old(nextDue)
        invariant log == old(log) && delivered == old(delivered)
        invariant ScanPlayers(Abs(), enabled, players[i..], awardPast) ==
                  ScanPlayers(old(Abs()), enabled, players, awardPast)
      {
        ok := ScanPlayer(enabled, players[i], awardPast);
        if !ok {
          return;
        }
      }
      ok := true;
    }

    /** One tick, both transactions of it. */
    method RunTick(pub: Publisher, cfg: Config, now: int, force: bool, players: Option<seq<Player>>, order: seq<Claim>)
      modifies this
      ensures Abs() == Battlepass.RunTick(pub, old(Abs()), cfg, now, force, players, order)
    {
      hide ScanPlayers, EnabledTiers, Battlepass.DeliverDue;
      if !cfg.enabled {
        return;
      }
      if !force && nextDue.Some? && nextDue.value > now {
        return;
      }
      nextDue := Some(now + cfg.pollSeconds);
      var enabled := EnabledTiers(tiers);
      if enabled == [] || players.None? {
        return;
      }
      var claims0, seen0 := claims, seen;
      var ok := Scan(enabled, players.value, cfg.awardPast);
      if !ok {
        claims, seen := claims0, seen0;  // the transaction rolls back
        return;
      }
      if cfg.autoGrant {
        EnqueueEarned();
        DeliverDue(pub, order, enabled, players.value, now);
      }
    }

    method GrantAccount(pub: Publisher, account: Account, fls: Option<string>, order: seq<TierKey>, now: int)
      modifies this
      ensures Abs() == Battlepass.GrantAccount(pub, old(Abs()), account, fls, order, now)
    {
      var earned := EarnedKeys(claims, account);
      if earned == {} || fls.None? || fls.value == "" {
        return;
      }
      ghost var earned0 := earned;
      for i := 0 to |order|
        invariant GrantEarned(pub, Abs(), order[i..], earned, account, now) ==
                  GrantEarned(pub, old(Abs()), order, earned0, account, now)
      {
        var t := FindTier(tiers, order[i]);
        if order[i] in earned && t.Some? {
          if (order[i], account) !in ledger {
            ledger := ledger[(order[i], account) := GrantRow(Pending, 0, 0)];
          }
          var outcome := DeliverGrant(pub, t.value, account, now);
          if outcome == RetryLater {
            return;
          }
        }
        earned := earned - {order[i]};
      }
    }

    method ResetClaims(mode: ResetMode, account: Account)
      modifies this
      ensures Abs() == Battlepass.ResetClaims(old(Abs()), mode, account)
    {
      ledger := map c | c in ledger && (ledger[c].status == Sealed || !InScope(c, account)) :: ledger[c];
      if mode == Demote {
        claims := map c | c in claims :: if claims[c] == Earned && InScope(c, account) then Baseline else claims[c];
      } else {
        claims := map c | c in claims && !InScope(c, account) :: claims[c];
        seen := set c | c in seen && !InScope(c, account);
      }
    }

    /** How many tiers there are now, None when the payload is refused. */
    method ReseedTiers(rows: seq<Tier>) returns (count: Option<nat>)
      modifies this
      ensures Abs() == Battlepass.ReseedTiers(old(Abs()), rows)
      ensures count == if rows != [] && DistinctKeys(rows) && (forall t | t in rows :: ValidTier(t)) then Some(|rows|)
              else None
    {
      var keys: set<TierKey> := {};
      for i := 0 to |rows|
        invariant keys == set j | 0 <= j < i :: rows[j].key
        invariant forall j, k | 0 <= j < k < i :: rows[j].key != rows[k].key
        invariant forall j | 0 <= j < i :: ValidTier(rows[j])
      {
        if !ValidTier(rows[i]) || rows[i].key in keys {
          return None;
        }
        keys := keys + {rows[i].key};
      }
      if rows == [] {
        return None;
      }
      var base := nextId;
      tiers := seq(|rows|, i requires 0 <= i < |rows| => rows[i].(id := base + i));
      nextId := nextId + |rows|;
      count := Some(|rows|);
    }

    method SeedIfEmpty(catalog: seq<Tier>)
      modifies this
      ensures Abs() == Battlepass.SeedIfEmpty(old(Abs()), catalog)
    {
      if tiers == [] {
        var _ := ReseedTiers(catalog);
      }
    }

    method UpdateTier(id: int, edited: Tier) returns (r: Edit)
      modifies this`tiers
      ensures Abs() == Battlepass.UpdateTier(old(Abs()), id, edited)
      ensures r.NoSuchTier? <==> forall t | t in old(tiers) :: t.id != id
      ensures r.Refused? <==> exists t | t in old(tiers) :: t.id == id && !ValidTier(edited.(key := t.key))
    {
      var merged := [];
      var found := false;
      for i := 0 to |tiers|
        invariant |merged| == i
        invariant found <==> exists j | 0 <= j < i :: tiers[j].id == id
        invariant forall j | 0 <= j < i :: tiers[j].id == id ==> ValidTier(edited.(key := tiers[j].key))
        invariant forall j | 0 <= j < i :: merged[j] == if tiers[j].id == id
                  then edited.(key := tiers[j].key, id := id) else tiers[j]
      {
        if tiers[i].id == id {
          if !ValidTier(edited.(key := tiers[i].key)) {
            return Refused;
          }
          found := true;
          merged := merged + [edited.(key := tiers[i].key, id := id)];
        } else {
          merged := merged + [tiers[i]];
        }
      }
      tiers := merged;
      r := if found then Edited else NoSuchTier;
    }
  }
}
