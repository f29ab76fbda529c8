/** The battlepass engine: tiers, claims, seen markers and the grant ledger
    (scripts/admin_battlepass.py).

    `Db` is the state of the database together with two histories: `log`, every
    delivery call made to the publisher, and `delivered`, the tier row a claim was
    paid under. The publisher is `pub`: `pub(n)` is the result code of the n-th
    delivery call of the whole run, so quantifying over `pub` covers every pattern
    of failures. SQL leaves the order of the rows open, so every pass that selects
    rows takes that order as an argument. */
module Battlepass {
  import opened Wrappers
  import Rewards

  const MAX_ATTEMPTS := 3
  const RETRY_BACKOFF_SECS := 24 * 3600
  const ONLINE_RETRY_SECS := 5 * 60
  const RC_PLAYER_ONLINE := 4

  type TierKey = string
  type Account = int
  /** The primary key of the claim, seen and ledger tables. */
  type Claim = (TierKey, Account)
  type Publisher = nat -> int

  type RewardItem = Rewards.RewardItem
  datatype Signal = Level | JourneyNode | PlayerTag
  datatype Tier = Tier(id: int, key: TierKey, signal: Signal, signalKey: string, threshold: int,
                       intel: int, items: seq<RewardItem>, enabled: bool)
  datatype ClaimStatus = Baseline | Earned | Granted
  datatype GrantStatus = Pending | Exhausted | Sealed
  datatype GrantRow = GrantRow(status: GrantStatus, attempts: nat, nextAttemptAt: int)
  datatype Call =
    | AwardIntel(claim: Claim, amount: int, rc: int)
    | GiveItem(claim: Claim, item: RewardItem, rc: int)

  /** One row of the tracked-players query, with what the signal queries would
      answer for it; None is a query that fails. */
  datatype Player = Player(account: Account, fls: string, level: int,
                           journey: Option<set<string>>, tags: Option<set<string>>)
  datatype Config = Config(enabled: bool, awardPast: bool, autoGrant: bool, pollSeconds: nat)

  datatype Db = Db(tiers: seq<Tier>, nextId: int, claims: map<Claim, ClaimStatus>, seen: set<Claim>,
                   ledger: map<Claim, GrantRow>, nextDue: Option<int>,
                   log: seq<Call>, delivered: map<Claim, Tier>)

  datatype ResetMode = Demote | Purge
  datatype Outcome = Delivered | RetryLater | Failed | Skipped
  datatype Action = MarkSeen | MakeBaseline | Earn

  // ---------------------------------------------------------------- scanning

  predicate Satisfied(t: Tier, p: Player) {
    match t.signal
    case Level => p.level >= t.threshold
    case JourneyNode => p.journey.Some? && t.signalKey in p.journey.value
    case PlayerTag => p.tags.Some? && t.signalKey in p.tags.value
  }

  function TierAction(satisfied: bool, seen: bool, awardPast: bool): Action {
    if !satisfied then MarkSeen
    else if awardPast || seen then Earn
    else MakeBaseline
  }

  function RecordClaim(db: Db, c: Claim, status: ClaimStatus): Db {
    if c in db.claims then db else db.(claims := db.claims[c := status])
  }

  function ScanTier(db: Db, t: Tier, p: Player, seen0: set<Claim>, awardPast: bool): Db {
    var c := (t.key, p.account);
    match TierAction(Satisfied(t, p), c in seen0, awardPast)
    case MarkSeen => db.(seen := db.seen + {c})
    case MakeBaseline => RecordClaim(db, c, Baseline)
    case Earn => RecordClaim(db, c, Earned)
  }

  function ScanOpen(db: Db, open: seq<Tier>, p: Player, seen0: set<Claim>, awardPast: bool): Db
    decreases open
  {
    if open == [] then db
    else ScanOpen(ScanTier(db, open[0], p, seen0, awardPast), open[1..], p, seen0, awardPast)
  }

  function OpenTiers(tiers: seq<Tier>, claims: map<Claim, ClaimStatus>, account: Account): seq<Tier> {
    if tiers == [] then []
    else (if (tiers[0].key, account) in claims then [] else [tiers[0]]) + OpenTiers(tiers[1..], claims, account)
  }

  /** A signal query the open tiers need did not answer: the tick raises. */
  predicate FetchFails(open: seq<Tier>, p: Player) {
    exists t | t in open :: (t.signal == JourneyNode && p.journey.None?) || (t.signal == PlayerTag && p.tags.None?)
  }

  function ScanPlayers(db: Db, tiers: seq<Tier>, players: seq<Player>, awardPast: bool): Option<Db>
    decreases players
  {
    if players == [] then Some(db)
    else
      var open := OpenTiers(tiers, db.claims, players[0].account);
      if FetchFails(open, players[0]) then None
      else ScanPlayers(ScanOpen(db, open, players[0], db.seen, awardPast), tiers, players[1..], awardPast)
  }

  function EnabledTiers(tiers: seq<Tier>): seq<Tier> {
    if tiers == [] then []
    else (if tiers[0].enabled then [tiers[0]] else []) + EnabledTiers(tiers[1..])
  }

  // ---------------------------------------------------------------- delivery

  function Enqueue(db: Db, c: Claim): Db {
    if c in db.ledger then db else db.(ledger := db.ledger[c := GrantRow(Pending, 0, 0)])
  }

  function EarnedClaims(claims: map<Claim, ClaimStatus>): set<Claim> {
    set c | c in claims && claims[c] == Earned
  }

  function EnqueueAll(db: Db, todo: set<Claim>): Db {
    db.(ledger := map c | c in db.ledger.Keys + todo ::
                    if c in db.ledger then db.ledger[c] else GrantRow(Pending, 0, 0))
  }

  function GiveItems(pub: Publisher, log: seq<Call>, c: Claim, items: seq<RewardItem>): seq<Call>
    decreases items
  {
    if items == [] then log
    else GiveItems(pub, log + [GiveItem(c, items[0], pub(|log|))], c, items[1..])
  }

  /** One ledger row: intel, then the claim, then the ledger, then the items. */
  function DeliverGrant(pub: Publisher, db: Db, t: Tier, account: Account, now: int): (Db, Outcome) {
    var c := (t.key, account);
    if c in db.ledger && db.ledger[c].status == Sealed then (db, Skipped)
    else if c !in db.claims || db.claims[c] != Earned then
      (if c in db.ledger then db.(ledger := db.ledger[c := db.ledger[c].(status := Sealed)]) else db, Skipped)
    else
      var rc := pub(|db.log|);
      var asked := if t.intel > 0 then db.(log := db.log + [AwardIntel(c, t.intel, rc)]) else db;
      if t.intel > 0 && rc == RC_PLAYER_ONLINE then (PostponeRow(asked, c, now), RetryLater)
      else if t.intel > 0 && rc != 0 then (FailRow(asked, c, now), Failed)
      else (Seal(pub, asked, c, t), Delivered)
  }

  function PostponeRow(db: Db, c: Claim, now: int): Db {
    if c in db.ledger then db.(ledger := db.ledger[c := db.ledger[c].(nextAttemptAt := now + ONLINE_RETRY_SECS)])
    else db
  }

  function FailRow(db: Db, c: Claim, now: int): Db {
    if c in db.ledger then
      var n := db.ledger[c].attempts + 1;
      db.(ledger := db.ledger[c := GrantRow(if n >= MAX_ATTEMPTS then Exhausted else Pending, n,
                                            now + RETRY_BACKOFF_SECS)])
    else db
  }

  function Seal(pub: Publisher, db: Db, c: Claim, t: Tier): Db {
    db.(claims := if c in db.claims then db.claims[c := Granted] else db.claims,
        ledger := if c in db.ledger then db.ledger[c := db.ledger[c].(status := Sealed)] else db.ledger,
        log := GiveItems(pub, db.log, c, t.items),
        delivered := db.delivered[c := t])
  }

  predicate IsDue(row: GrantRow, now: int) {
    row.status == Pending && row.attempts < MAX_ATTEMPTS && row.nextAttemptAt <= now
  }

  function DueClaims(ledger: map<Claim, GrantRow>, now: int): set<Claim> {
    set c | c in ledger && IsDue(ledger[c], now)
  }

  function FindTier(tiers: seq<Tier>, key: TierKey): Option<Tier> {
    if tiers == [] then None
    else if tiers[|tiers| - 1].key == key then Some(tiers[|tiers| - 1])
    else FindTier(tiers[..|tiers| - 1], key)
  }

  function FindPlayer(players: seq<Player>, account: Account): Option<Player> {
    if players == [] then None
    else if players[|players| - 1].account == account then Some(players[|players| - 1])
    else FindPlayer(players[..|players| - 1], account)
  }

  function DeliverDue(pub: Publisher, db: Db, order: seq<Claim>, due: set<Claim>, tiers: seq<Tier>,
                      players: seq<Player>, now: int): Db
    decreases order
  {
    if order == [] then db
    else
      var c := order[0];
      var t := FindTier(tiers, c.0);
      var p := FindPlayer(players, c.1);
      if c !in due || t.None? || p.None? || p.value.fls == "" then
        DeliverDue(pub, db, order[1..], due - {c}, tiers, players, now)
      else
        DeliverDue(pub, DeliverGrant(pub, db, t.value, c.1, now).0, order[1..], due - {c}, tiers, players, now)
  }

  // ------------------------------------------------------------ entry points

  function GrantPass(pub: Publisher, db: Db, order: seq<Claim>, tiers: seq<Tier>, players: seq<Player>, now: int): Db {
    var queued := EnqueueAll(db, EarnedClaims(db.claims));
    DeliverDue(pub, queued, order, DueClaims(queued.ledger, now), tiers, players, now)
  }

  predicate Runs(db: Db, cfg: Config, now: int, force: bool) {
    cfg.enabled && (force || db.nextDue.None? || db.nextDue.value <= now)
  }

  /** One tick. `players` is None when the player query fails; a query that fails
      rolls the second transaction back and leaves only the pacing stamp. */
  function RunTick(pub: Publisher, db: Db, cfg: Config, now: int, force: bool,
                   players: Option<seq<Player>>, order: seq<Claim>): Db {
    if !Runs(db, cfg, now, force) then db
    else
      var paced := db.(nextDue := Some(now + cfg.pollSeconds));
      var tiers := EnabledTiers(db.tiers);
      if tiers == [] || players.None? then paced
      else
        match ScanPlayers(paced, tiers, players.value, cfg.awardPast)
        case None => paced
        case Some(scanned) =>
          if cfg.autoGrant then GrantPass(pub, scanned, order, tiers, players.value, now) else scanned
  }

  function GrantEarned(pub: Publisher, db: Db, order: seq<TierKey>, earned: set<TierKey>, account: Account,
                       now: int): Db
    decreases order
  {
    if order == [] then db
    else
      var key := order[0];
      var t := FindTier(db.tiers, key);
      if key !in earned || t.None? then GrantEarned(pub, db, order[1..], earned - {key}, account, now)
      else
        var (after, outcome) := DeliverGrant(pub, Enqueue(db, (key, account)), t.value, account, now);
        if outcome == RetryLater then after
        else GrantEarned(pub, after, order[1..], earned - {key}, account, now)
  }

  function EarnedKeys(claims: map<Claim, ClaimStatus>, account: Account): set<TierKey> {
    set c | c in claims && c.1 == account && claims[c] == Earned :: c.0
  }

  /** The manual grant. `fls` is None when the target query fails, "" when it finds nobody. */
  function GrantAccount(pub: Publisher, db: Db, account: Account, fls: Option<string>, order: seq<TierKey>,
                        now: int): Db {
    var earned := EarnedKeys(db.claims, account);
    if earned == {} || fls.None? || fls.value == "" then db
    else GrantEarned(pub, db, order, earned, account, now)
  }

  predicate InScope(c: Claim, account: Account) { account == 0 || c.1 == account }

  function ResetClaims(db: Db, mode: ResetMode, account: Account): Db {
    var swept := db.(ledger := map c | c in db.ledger && (db.ledger[c].status == Sealed || !InScope(c, account)) ::
                     db.ledger[c]);
    match mode
    case Demote => swept.(claims := map c | c in db.claims ::
                            if db.claims[c] == Earned && InScope(c, account) then Baseline else db.claims[c])
    case Purge => swept.(claims := map c | c in db.claims && !InScope(c, account) :: db.claims[c],
                         seen := set c | c in db.seen && !InScope(c, account))
  }

  predicate ValidTier(t: Tier) {
    && t.key != "" && t.threshold >= 0 && t.intel >= 0
    && (t.signal == Level ==> t.threshold >= 1)
    && (t.signal != Level ==> t.signalKey != "")
    && forall it | it in t.items :: it.template != ""
  }

  predicate DistinctKeys(tiers: seq<Tier>) {
    forall i, j | 0 <= i < j < |tiers| :: tiers[i].key != tiers[j].key
  }

  /** The whole payload is checked before anything is written. */
  function ReseedTiers(db: Db, tiers: seq<Tier>): Db {
    if tiers == [] || !DistinctKeys(tiers) || (exists t | t in tiers :: !ValidTier(t)) then db
    else db.(tiers := seq(|tiers|, i requires 0 <= i < |tiers| => tiers[i].(id := db.nextId + i)),
             nextId := db.nextId + |tiers|)
  }

  function SeedIfEmpty(db: Db, catalog: seq<Tier>): Db {
    if db.tiers == [] then ReseedTiers(db, catalog) else db
  }

  /** `edited` is the merged row; its key and id are those of the row it replaces. */
  function UpdateTier(db: Db, id: int, edited: Tier): Db {
    if exists i | 0 <= i < |db.tiers| :: db.tiers[i].id == id && !ValidTier(edited.(key := db.tiers[i].key)) then db
    else db.(tiers := seq(|db.tiers|, i requires 0 <= i < |db.tiers| =>
                            if db.tiers[i].id == id then edited.(key := db.tiers[i].key, id := id) else db.tiers[i]))
  }
}
