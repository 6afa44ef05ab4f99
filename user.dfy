/** The user repository of internal/repository/user.go: the points ledger
    with its referrer bonus, registration, the energy accounting of the ball
    game, and the two ranked listings. */
module UserRepository {
  import opened Common
  import opened Tables

  // ---------------------------------------------------------------- points ledger

  /** The referrer's share of a credit of p points: a tenth, rounded up. */
  function ReferrerBonus(p: int): (b: int)
    ensures p <= 10 * b < p + 10
  {
    (p + 9) / 10
  }

  /** What a credit of p points to id adds to u's balance: p to id itself and
      the bonus to id's referrer (both, if a user refers themself). */
  function Gain(users: map<UserId, UserRow>, id: UserId, p: int, u: UserId): int
    requires id in users
  {
    (if u == id then p else 0) + (if users[id].referrerId == Some(u) then ReferrerBonus(p) else 0)
  }

  /** The users table after UpdateUserPoints(id, p), or its error. */
  function Credit(users: map<UserId, UserRow>, id: UserId, p: int): (r: Result<map<UserId, UserRow>, Error>)
    // a missing user is ErrNotFound, and nothing is written
    ensures r.Err? <==> id !in users
    ensures r.Err? ==> r.error == RepoNotFound
    // otherwise only points change: by p for the user, by the bonus for a
    // registered referrer, and by nothing for everyone else
    ensures r.Ok? ==> r.value.Keys == users.Keys
    ensures r.Ok? ==> forall u :: u in users ==>
      r.value[u] == users[u].(points := users[u].points + Gain(users, id, p, u))
  {
    if id !in users then Err(RepoNotFound)
    else
      var credited := users[id := users[id].(points := users[id].points + p)];
      var referrer := users[id].referrerId;
      if referrer.Some? && referrer.value in credited then
        var ref := credited[referrer.value];
        Ok(credited[referrer.value := ref.(points := ref.points + ReferrerBonus(p))])
      else
        Ok(credited)
  }

  /** UpdateUserPoints and its in-transaction twin updateUserPointsWithTx. */
  method UpdateUserPoints(r: Repository, id: UserId, p: int) returns (err: Option<Error>)
    modifies r
    ensures var c := Credit(old(r.db.users), id, p);
      && (c.Ok? ==> err.None? && r.db == old(r.db).(users := c.value))
      && (c.Err? ==> err == Some(c.error) && r.db == old(r.db))
  {
    var users := r.db.users;
    if id !in users {
      return Some(RepoNotFound);
    }
    var user := users[id];
    users := users[id := user.(points := user.points + p)];
    if user.referrerId.Some? {
      var referrer := user.referrerId.value;
      if referrer in users {
        users := users[referrer := users[referrer].(points := users[referrer].points + ReferrerBonus(p))];
      }
    }
    r.db := r.db.(users := users);
    err := None;
  }

  /** Two credits to a user without a referrer add up. */
  lemma CreditsAddUp(users: map<UserId, UserRow>, id: UserId, p: int, q: int)
    requires id in users && users[id].referrerId.None?
    ensures var once := Credit(users, id, p);
      && once.Ok?
      && var twice := Credit(once.value, id, q);
      && twice.Ok?
      && twice.value == users[id := users[id].(points := users[id].points + p + q)]
  {
    var once := Credit(users, id, p).value;
    var twice := Credit(once, id, q).value;
    assert twice.Keys == users.Keys;
    forall u | u in users
      ensures twice[u] == users[id := users[id].(points := users[id].points + p + q)][u]
    {
    }
  }

  // ---------------------------------------------------------------- registration

  const FreshUserQuest: UserQuestRow := UserQuestRow(false, None, None)

  /** m with a row v added under (id, q) for every q in quests (the rows a
      multi-row INSERT writes). */
  function AddRows<V>(m: map<(UserId, QuestId), V>, id: UserId, quests: set<QuestId>, v: V): (r: map<(UserId, QuestId), V>)
    ensures forall k :: k in r <==> k in m || (k.0 == id && k.1 in quests)
    ensures forall k :: k in m ==> r[k] == m[k]
    ensures forall q :: q in quests && (id, q) !in m ==> r[(id, q)] == v
  {
    (map q | q in quests :: (id, q) := v) + m
  }

  /** The referrals counter of the referrer, if registered, one higher. */
  function Referred(users: map<UserId, UserRow>, referrer: Option<UserId>): (r: map<UserId, UserRow>)
    ensures r.Keys == users.Keys
    ensures forall u :: u in users ==>
      r[u] == users[u].(referrals := users[u].referrals + if referrer == Some(u) then 1 else 0)
  {
    if referrer.Some? && referrer.value in users then
      users[referrer.value := users[referrer.value].(referrals := users[referrer.value].referrals + 1)]
    else users
  }

  /** None of the rows CreateUser inserts exists yet. */
  predicate Insertable(db: Db, id: UserId)
  {
    && id !in db.users
    && id !in db.dailyQuests
    && (forall q :: q in db.socialQuests ==> (id, q) !in db.usersSocialQuests)
    && (forall q :: q in db.referralQuests ==> (id, q) !in db.referralQuestsUsers)
  }

  /** The database after CreateUser(id, user), or the error of the first
      statement of the transaction that violates a key. */
  function Register(db: Db, id: UserId, user: UserRow): (r: Result<Db, Error>)
    ensures r.Err? <==> !Insertable(db, id)
    ensures r.Err? ==> Is(r.error, DuplicateKey)
    // the user row, with the referrer's counter raised (the user's own, for a
    // self-referral)
    ensures r.Ok? ==> r.value.users.Keys == db.users.Keys + {id}
    ensures r.Ok? ==> forall u :: u in r.value.users ==>
      var before := if u == id then user else db.users[u];
      r.value.users[u] == before.(referrals := before.referrals + if user.referrerId == Some(u) then 1 else 0)
    // a daily-quest row with an empty streak
    ensures r.Ok? ==> r.value.dailyQuests == db.dailyQuests[id := DailyRow(None, 0)]
    // one uncompleted row per social quest and per referral quest, the
    // existing rows untouched
    ensures r.Ok? ==> forall k :: k in r.value.usersSocialQuests <==>
      k in db.usersSocialQuests || (k.0 == id && k.1 in db.socialQuests)
    ensures r.Ok? ==> forall q :: q in db.socialQuests ==> r.value.usersSocialQuests[(id, q)] == FreshUserQuest
    ensures r.Ok? ==> forall k :: k in db.usersSocialQuests ==> r.value.usersSocialQuests[k] == db.usersSocialQuests[k]
    ensures r.Ok? ==> forall k :: k in r.value.referralQuestsUsers <==>
      k in db.referralQuestsUsers || (k.0 == id && k.1 in db.referralQuests)
    ensures r.Ok? ==> forall q :: q in db.referralQuests ==> !r.value.referralQuestsUsers[(id, q)]
    // and no other table
    ensures r.Ok? ==> r.value == db.(users := r.value.users, dailyQuests := r.value.dailyQuests,
      usersSocialQuests := r.value.usersSocialQuests, referralQuestsUsers := r.value.referralQuestsUsers)
  {
    if id in db.users then Err(Wrap("failed to insert user", DuplicateKey))
    else if id in db.dailyQuests then Err(Wrap("failed to insert daily quest", DuplicateKey))
    else if !(forall q :: q in db.socialQuests ==> (id, q) !in db.usersSocialQuests) then
      Err(Wrap("failed to insert user social quests", DuplicateKey))
    else if !(forall q :: q in db.referralQuests ==> (id, q) !in db.referralQuestsUsers) then
      Err(Wrap("failed to insert user referral quests", DuplicateKey))
    else
      var users := Referred(db.users[id := user], user.referrerId);
      var userQuests := AddRows(db.usersSocialQuests, id, db.socialQuests.Keys, FreshUserQuest);
      var referralRows := AddRows(db.referralQuestsUsers, id, db.referralQuests, false);
      Ok(db.(users := users, dailyQuests := db.dailyQuests[id := DailyRow(None, 0)],
             usersSocialQuests := userQuests, referralQuestsUsers := referralRows))
  }

  /** Registering a new user in a consistent database always succeeds and
      keeps it consistent: in particular the new user has a row for every
      social quest. */
  lemma {:induction false} RegisterKeepsValid(db: Db, id: UserId, user: UserRow)
    requires Valid(db) && id !in db.users
    ensures Register(db, id, user).Ok?
    ensures Valid(Register(db, id, user).value)
  {
    assert Insertable(db, id) by {
      assert id !in db.dailyQuests;
      assert forall q :: q in db.socialQuests ==> (id, q) !in db.usersSocialQuests;
      assert forall q :: q in db.referralQuests ==> (id, q) !in db.referralQuestsUsers;
    }
    RegisteredRowsCovered(db, id, user);
  }

  /** After a registration every user, the new one included, has a row for
      every social quest, and every quest-user row names a user and a quest. */
  lemma RegisteredRowsCovered(db: Db, id: UserId, user: UserRow)
    requires Valid(db) && Register(db, id, user).Ok?
    ensures var after := Register(db, id, user).value;
      && (forall k :: k in after.usersSocialQuests ==> k.0 in after.users && k.1 in after.socialQuests)
      && (forall u, q :: u in after.users && q in after.socialQuests ==> (u, q) in after.usersSocialQuests)
      && (forall k :: k in after.referralQuestsUsers ==> k.0 in after.users && k.1 in after.referralQuests)
  {
    var after := Register(db, id, user).value;
    assert after.users.Keys == db.users.Keys + {id};
    forall u, q | u in after.users && q in after.socialQuests
      ensures (u, q) in after.usersSocialQuests
    {
      if u != id {
        assert u in db.users;
      }
    }
  }

  /** One more quest, one more row, when its key is free. */
  lemma AddRowsGrows<V>(m: map<(UserId, QuestId), V>, id: UserId, quests: set<QuestId>, q: QuestId, v: V)
    requires (id, q) !in m
    ensures AddRows(m, id, quests + {q}, v) == AddRows(m, id, quests, v)[(id, q) := v]
  {
    var grown := AddRows(m, id, quests + {q}, v);
    var step := AddRows(m, id, quests, v)[(id, q) := v];
    assert grown.Keys == step.Keys;
  }

  /** One multi-row INSERT of a row v under (id, q) for each q in quests:
      it fails as a whole if any of those keys is taken. */
  method InsertRows<V>(m: map<(UserId, QuestId), V>, id: UserId, quests: set<QuestId>, v: V)
    returns (rows: Option<map<(UserId, QuestId), V>>)
    ensures rows.None? <==> exists q :: q in quests && (id, q) in m
    ensures rows.Some? ==> rows.value == AddRows(m, id, quests, v)
  {
    var inserted := m;
    var pending := quests;
    while exists q :: q in pending
      invariant pending <= quests
      invariant forall q :: q in quests - pending ==> (id, q) !in m
      invariant inserted == AddRows(m, id, quests - pending, v)
      decreases pending
    {
      var q :| q in pending;
      if (id, q) in m {
        return None;
      }
      assert quests - (pending - {q}) == (quests - pending) + {q};
      AddRowsGrows(m, id, quests - pending, q, v);
      inserted := inserted[(id, q) := v];
      pending := pending - {q};
    }
    assert quests - pending == quests;
    rows := Some(inserted);
  }

  /** CreateUser: the whole transaction, or nothing. */
  method CreateUser(r: Repository, id: UserId, user: UserRow) returns (err: Option<Error>)
    modifies r
    ensures var reg := Register(old(r.db), id, user);
      && (reg.Ok? ==> err.None? && r.db == reg.value)
      && (reg.Err? ==> err == Some(reg.error) && r.db == old(r.db))
  {
    var db := r.db;
    if id in db.users {
      return Some(Wrap("failed to insert user", DuplicateKey));
    }
    var users := db.users[id := user];
    if user.referrerId.Some? && user.referrerId.value in users {
      var referrer := user.referrerId.value;
      users := users[referrer := users[referrer].(referrals := users[referrer].referrals + 1)];
    }
    if id in db.dailyQuests {
      return Some(Wrap("failed to insert daily quest", DuplicateKey));
    }
    var daily := db.dailyQuests[id := DailyRow(None, 0)];
    var userQuests := InsertRows(db.usersSocialQuests, id, db.socialQuests.Keys, FreshUserQuest);
    if userQuests.None? {
      return Some(Wrap("failed to insert user social quests", DuplicateKey));
    }
    var referralRows := InsertRows(db.referralQuestsUsers, id, db.referralQuests, false);
    if referralRows.None? {
      return Some(Wrap("failed to insert user referral quests", DuplicateKey));
    }
    assert users == Referred(db.users[id := user], user.referrerId);
    r.db := db.(users := users, dailyQuests := daily, usersSocialQuests := userQuests.value,
                referralQuestsUsers := referralRows.value);
    err := None;
  }

  // ---------------------------------------------------------------- energy

  /** players.total_energy of a player row created on first lookup. */
  const DefaultTotalEnergy: int := 3

  /** The player's uses still cooling down: used strictly after now minus the cooldown. */
  function ActiveUses(uses: map<(UserId, int), Time>, player: UserId, now: Time, cooldownHours: int): set<(UserId, int)>
  {
    set k | k in uses && k.0 == player && uses[k] > now - cooldownHours * Hour
  }

  datatype Energy = Energy(total: int, remaining: int)

  /** What GetPlayerEnergy returns. */
  function PlayerEnergy(db: Db, player: UserId, now: Time, cooldownHours: int): (e: Energy)
    ensures player !in db.players ==> e == Energy(DefaultTotalEnergy, DefaultTotalEnergy)
    ensures player in db.players ==> e.total == db.players[player]
    ensures e.remaining <= e.total
    // full exactly when no use is still cooling down; a use made exactly one
    // cooldown ago no longer counts
    ensures player in db.players ==>
      (e.remaining == e.total <==>
       forall k :: k in db.energyUses && k.0 == player ==> db.energyUses[k] <= now - cooldownHours * Hour)
  {
    if player !in db.players then Energy(DefaultTotalEnergy, DefaultTotalEnergy)
    else
      var active := ActiveUses(db.energyUses, player, now, cooldownHours);
      NoActiveUses(db.energyUses, player, now, cooldownHours);
      Energy(db.players[player], db.players[player] - |active|)
  }

  lemma NoActiveUses(uses: map<(UserId, int), Time>, player: UserId, now: Time, cooldownHours: int)
    ensures |ActiveUses(uses, player, now, cooldownHours)| == 0 <==>
      forall k :: k in uses && k.0 == player ==> uses[k] <= now - cooldownHours * Hour
  {
    var active := ActiveUses(uses, player, now, cooldownHours);
    if exists k :: k in uses && k.0 == player && uses[k] > now - cooldownHours * Hour {
      var k :| k in uses && k.0 == player && uses[k] > now - cooldownHours * Hour;
      assert k in active;
      assert |active - {k}| + 1 == |active|;
    } else {
      assert active == {};
    }
  }

  /** The players table after GetPlayerEnergy: a row with the default total is
      created on first lookup. */
  function WithPlayer(players: map<UserId, int>, player: UserId): map<UserId, int>
  {
    if player in players then players else players[player := DefaultTotalEnergy]
  }

  method GetPlayerEnergy(r: Repository, player: UserId, now: Time, cooldownHours: int) returns (total: int, remaining: int)
    modifies r
    ensures Energy(total, remaining) == PlayerEnergy(old(r.db), player, now, cooldownHours)
    ensures r.db == old(r.db).(players := WithPlayer(old(r.db.players), player))
  {
    var db := r.db;
    if player !in db.players {
      r.db := db.(players := db.players[player := DefaultTotalEnergy]);
      return DefaultTotalEnergy, DefaultTotalEnergy;
    }
    total := db.players[player];
    var usedEnergy := |ActiveUses(db.energyUses, player, now, cooldownHours)|;
    remaining := total - usedEnergy;
  }

  /** A lookup creates the player row once; later lookups see that row. */
  lemma PlayerRowCreatedOnce(db: Db, player: UserId, now: Time, later: Time, cooldownHours: int)
    requires player !in db.players
    ensures var after := db.(players := WithPlayer(db.players, player));
      && after.players[player] == DefaultTotalEnergy
      && PlayerEnergy(after, player, later, cooldownHours).total == DefaultTotalEnergy
      && WithPlayer(after.players, player) == after.players
  {
  }

  /** The player's most recent use time, if any. */
  ghost function LatestUse(uses: map<(UserId, int), Time>, player: UserId): (t: Option<Time>)
    ensures t.None? <==> forall k :: k in uses ==> k.0 != player
    ensures t.Some? ==> exists k :: k in uses && k.0 == player && uses[k] == t.value
    ensures t.Some? ==> forall k :: k in uses && k.0 == player ==> uses[k] <= t.value
  {
    var times := set k | k in uses && k.0 == player :: uses[k];
    if exists k :: k in uses && k.0 == player then
      var k :| k in uses && k.0 == player;
      assert uses[k] in times;
      assert forall j :: j in uses && j.0 == player ==> uses[j] in times;
      Some(Max(times))
    else
      None
  }

  /** GetEnergyStatus: the energy number and time of the player's most recent
      use (ORDER BY used_at DESC LIMIT 1; any of several uses at the same
      instant), or an error when there is none. */
  method GetEnergyStatus(r: Repository, player: UserId) returns (res: Result<(int, Time), Error>)
    ensures res.Err? <==> LatestUse(r.db.energyUses, player).None?
    ensures res.Err? ==> res.error == Wrap("failed to get energy status", NoRows)
    ensures res.Ok? ==> (player, res.value.0) in r.db.energyUses
    ensures res.Ok? ==> r.db.energyUses[(player, res.value.0)] == res.value.1
    ensures res.Ok? ==> LatestUse(r.db.energyUses, player) == Some(res.value.1)
  {
    var uses := r.db.energyUses;
    if forall k :: k in uses ==> k.0 != player {
      return Err(Wrap("failed to get energy status", NoRows));
    }
    ghost var latest := LatestUse(uses, player);
    var k :| k in uses && k.0 == player && forall j :: j in uses && j.0 == player ==> uses[j] <= uses[k];
    res := Ok((k.1, uses[k]));
  }

  /** The energy_number UpdatePlayerEnergy writes: one more than the number of
      active uses (the count joins players, so it is 0 without a players row). */
  function UseNumber(db: Db, player: UserId, now: Time, cooldownHours: int): int
  {
    (if player in db.players then |ActiveUses(db.energyUses, player, now, cooldownHours)| else 0) + 1
  }

  /** energy_uses after UpdatePlayerEnergy: the use is written under
      (player, UseNumber), refreshing used_at if that key is taken. */
  function RecordUse(db: Db, player: UserId, now: Time, cooldownHours: int): map<(UserId, int), Time>
  {
    db.energyUses[(player, UseNumber(db, player, now, cooldownHours)) := now]
  }

  method UpdatePlayerEnergy(r: Repository, player: UserId, now: Time, cooldownHours: int)
    modifies r
    ensures r.db == old(r.db).(energyUses := RecordUse(old(r.db), player, now, cooldownHours))
  {
    var db := r.db;
    var usedEnergy := 0;
    if player in db.players {
      usedEnergy := |ActiveUses(db.energyUses, player, now, cooldownHours)|;
    }
    r.db := db.(energyUses := db.energyUses[(player, usedEnergy + 1) := now]);
  }

  /** A recorded use costs exactly one energy unless its key overwrites a use
      that is still cooling down. */
  lemma RecordedUseCounts(db: Db, player: UserId, now: Time, cooldownHours: int)
    requires player in db.players && cooldownHours > 0
    requires (player, UseNumber(db, player, now, cooldownHours)) !in ActiveUses(db.energyUses, player, now, cooldownHours)
    ensures PlayerEnergy(db.(energyUses := RecordUse(db, player, now, cooldownHours)), player, now, cooldownHours).remaining
         == PlayerEnergy(db, player, now, cooldownHours).remaining - 1
  {
    var key := (player, UseNumber(db, player, now, cooldownHours));
    var after := RecordUse(db, player, now, cooldownHours);
    assert ActiveUses(after, player, now, cooldownHours) == ActiveUses(db.energyUses, player, now, cooldownHours) + {key};
  }

  /** Recording a use never touches another player's energy. */
  lemma RecordUseKeepsOthers(db: Db, player: UserId, other: UserId, now: Time, later: Time, cooldownHours: int)
    requires other != player
    ensures PlayerEnergy(db.(energyUses := RecordUse(db, player, now, cooldownHours)), other, later, cooldownHours)
         == PlayerEnergy(db, other, later, cooldownHours)
  {
    var after := RecordUse(db, player, now, cooldownHours);
    assert ActiveUses(after, other, later, cooldownHours) == ActiveUses(db.energyUses, other, later, cooldownHours);
  }

  /** As written, a use can land on the key of a use still cooling down and
      so cost nothing: with uses 1 (at t0) and 2 (an hour later), eight hours
      after t0 only use 2 is active, the new use is numbered 2 and overwrites
      it, and the remaining energy stays 2. */
  lemma CollidingUseCostsNothing(player: UserId, t0: Time)
    ensures var db := EmptyDb.(players := map[player := 3],
                               energyUses := map[(player, 1) := t0, (player, 2) := t0 + Hour]);
      var now := t0 + 8 * Hour;
      && UseNumber(db, player, now, 8) == 2
      && PlayerEnergy(db, player, now, 8).remaining == 2
      && PlayerEnergy(db.(energyUses := RecordUse(db, player, now, 8)), player, now, 8).remaining == 2
  {
    var db := EmptyDb.(players := map[player := 3],
                       energyUses := map[(player, 1) := t0, (player, 2) := t0 + Hour]);
    var now := t0 + 8 * Hour;
    assert ActiveUses(db.energyUses, player, now, 8) == {(player, 2)};
    var after := RecordUse(db, player, now, 8);
    assert after == map[(player, 1) := t0, (player, 2) := now];
    assert ActiveUses(after, player, now, 8) == {(player, 2)};
  }

  /** The number a use would evidently be meant to get: one past the
      player's highest energy number, so no existing use is overwritten. */
  ghost function FreshUseNumber(uses: map<(UserId, int), Time>, player: UserId): (n: int)
    ensures (player, n) !in uses
  {
    var numbers := set k | k in uses && k.0 == player :: k.1;
    if exists k :: k in uses && k.0 == player then
      var k :| k in uses && k.0 == player;
      assert k.1 in numbers;
      assert forall j :: j in uses && j.0 == player ==> j.1 in numbers;
      Max(numbers) + 1
    else 1
  }

  ghost function RecordUseIntended(db: Db, player: UserId, now: Time): map<(UserId, int), Time>
  {
    db.energyUses[(player, FreshUseNumber(db.energyUses, player)) := now]
  }

  /** With a fresh number every use costs exactly one energy. */
  lemma IntendedUseAlwaysCounts(db: Db, player: UserId, now: Time, cooldownHours: int)
    requires player in db.players && cooldownHours > 0
    ensures PlayerEnergy(db.(energyUses := RecordUseIntended(db, player, now)), player, now, cooldownHours).remaining
         == PlayerEnergy(db, player, now, cooldownHours).remaining - 1
  {
    var key := (player, FreshUseNumber(db.energyUses, player));
    var after := RecordUseIntended(db, player, now);
    assert key !in ActiveUses(db.energyUses, player, now, cooldownHours);
    assert ActiveUses(after, player, now, cooldownHours) == ActiveUses(db.energyUses, player, now, cooldownHours) + {key};
  }

  /** energy_uses after ResetEnergy: every use of the player is gone. */
  function ClearUses(uses: map<(UserId, int), Time>, player: UserId): map<(UserId, int), Time>
  {
    map k | k in uses && k.0 != player :: uses[k]
  }

  method ResetEnergy(r: Repository, player: UserId)
    modifies r
    ensures r.db == old(r.db).(energyUses := ClearUses(old(r.db.energyUses), player))
  {
    var db := r.db;
    r.db := db.(energyUses := map k | k in db.energyUses && k.0 != player :: db.energyUses[k]);
  }

  /** After a reset the player's energy is full, at any instant. */
  lemma ResetRestoresEnergy(db: Db, player: UserId, now: Time, cooldownHours: int)
    ensures var e := PlayerEnergy(db.(energyUses := ClearUses(db.energyUses, player)), player, now, cooldownHours);
      e.remaining == e.total
  {
  }

  /** A reset leaves every other player's uses as they were. */
  lemma ResetKeepsOthers(db: Db, player: UserId, other: UserId, now: Time, cooldownHours: int)
    requires other != player
    ensures PlayerEnergy(db.(energyUses := ClearUses(db.energyUses, player)), other, now, cooldownHours)
         == PlayerEnergy(db, other, now, cooldownHours)
  {
    assert ActiveUses(ClearUses(db.energyUses, player), other, now, cooldownHours)
        == ActiveUses(db.energyUses, other, now, cooldownHours);
  }

  // ---------------------------------------------------------------- rankings

  /** The columns the two listings select. */
  datatype Ranked = Ranked(telegramId: UserId, username: string, points: int, referrals: int)

  function Summary(users: map<UserId, UserRow>, id: UserId): Ranked
    requires id in users
  {
    Ranked(id, users[id].username, users[id].points, users[id].referrals)
  }

  /** A candidate with the most points. */
  ghost function TopScorer(users: map<UserId, UserRow>, candidates: set<UserId>): (u: UserId)
    requires candidates <= users.Keys
    requires exists v :: v in candidates
    ensures u in candidates
    ensures forall v :: v in candidates ==> users[v].points <= users[u].points
  {
    var some :| some in candidates;
    var scores := set v | v in candidates :: users[v].points;
    assert users[some].points in scores;
    assert forall v :: v in candidates ==> users[v].points in scores;
    var best := Max(scores);
    var u :| u in candidates && users[u].points == best;
    u
  }

  /** Distinct ids in non-increasing points order. */
  predicate Descending(users: map<UserId, UserRow>, ids: seq<UserId>)
    requires forall i :: 0 <= i < |ids| ==> ids[i] in users
  {
    && (forall i, j :: 0 <= i < j < |ids| ==> ids[i] != ids[j])
    && (forall i, j :: 0 <= i < j < |ids| ==> users[ids[i]].points >= users[ids[j]].points)
  }

  /** The candidates in ORDER BY points DESC order; ties come in any order. */
  ghost function RankByPoints(users: map<UserId, UserRow>, candidates: set<UserId>): (ids: seq<UserId>)
    requires candidates <= users.Keys
    ensures |ids| == |candidates|
    ensures forall i :: 0 <= i < |ids| ==> ids[i] in candidates
    ensures forall u :: u in candidates ==> u in ids
    ensures Descending(users, ids)
    decreases |candidates|
  {
    if exists u :: u in candidates then
      var u := TopScorer(users, candidates);
      var rest := RankByPoints(users, candidates - {u});
      TopThenRest(users, candidates, u, rest);
      [u] + rest
    else
      assert candidates == {};
      []
  }

  /** A top scorer followed by a ranking of the other candidates ranks all
      of them. */
  lemma TopThenRest(users: map<UserId, UserRow>, candidates: set<UserId>, u: UserId, rest: seq<UserId>)
    requires candidates <= users.Keys
    requires u in candidates && forall v :: v in candidates ==> users[v].points <= users[u].points
    requires |rest| == |candidates - {u}|
    requires forall i :: 0 <= i < |rest| ==> rest[i] in candidates - {u}
    requires forall v :: v in candidates - {u} ==> v in rest
    requires Descending(users, rest)
    ensures |[u] + rest| == |candidates|
    ensures forall i :: 0 <= i < |[u] + rest| ==> ([u] + rest)[i] in candidates
    ensures forall v :: v in candidates ==> v in [u] + rest
    ensures Descending(users, [u] + rest)
  {
    var ids := [u] + rest;
    assert forall i :: 1 <= i < |ids| ==> ids[i] == rest[i - 1];
    assert forall v :: v in candidates && v != u ==> v in rest;
  }

  /** The listed ids of a listing. */
  function Ids(listing: seq<Ranked>): set<UserId>
  {
    set r | r in listing :: r.telegramId
  }

  /** The selected columns of the given users, in the given order. */
  function Listing(users: map<UserId, UserRow>, ids: seq<UserId>): (rows: seq<Ranked>)
    requires forall i :: 0 <= i < |ids| ==> ids[i] in users
    ensures |rows| == |ids|
    ensures forall i :: 0 <= i < |ids| ==> rows[i] == Summary(users, ids[i])
  {
    seq(|ids|, i requires 0 <= i < |ids| => Summary(users, ids[i]))
  }

  /** GetTopUsers(limit): the first limit users by points. A negative limit
      is cast to uint64 and written into the query as a LIMIT beyond the
      database's bigint range, so the query fails. */
  ghost function GetTopUsers(db: Db, limit: int): (res: Result<seq<Ranked>, Error>)
    ensures res.Err? <==> limit < 0
    ensures res.Ok? ==> |res.value| == if limit < |db.users| then limit else |db.users|
    ensures res.Ok? ==> forall i :: 0 <= i < |res.value| ==>
      res.value[i].telegramId in db.users && res.value[i] == Summary(db.users, res.value[i].telegramId)
    ensures res.Ok? ==> forall i, j :: 0 <= i < j < |res.value| ==> res.value[i].telegramId != res.value[j].telegramId
    ensures res.Ok? ==> forall i, j :: 0 <= i < j < |res.value| ==> res.value[i].points >= res.value[j].points
    // nobody left out has more points than anyone listed
    ensures res.Ok? ==> forall u, i :: u in db.users && u !in Ids(res.value) && 0 <= i < |res.value| ==>
      db.users[u].points <= res.value[i].points
  {
    if limit < 0 then Err(Message("bigint out of range"))
    else
      var ranked := RankByPoints(db.users, db.users.Keys);
      var n := if limit < |ranked| then limit else |ranked|;
      TopOfRanking(db.users, ranked, n);
      Ok(Listing(db.users, ranked[..n]))
  }

  /** The first n of a complete ranking list distinct users by points, and
      nobody left out has more points than anyone listed. */
  lemma TopOfRanking(users: map<UserId, UserRow>, ranked: seq<UserId>, n: nat)
    requires forall i :: 0 <= i < |ranked| ==> ranked[i] in users
    requires forall u :: u in users ==> u in ranked
    requires Descending(users, ranked)
    requires n <= |ranked|
    ensures var top := Listing(users, ranked[..n]);
      && |top| == n
      && (forall i :: 0 <= i < n ==> top[i].telegramId in users && top[i] == Summary(users, top[i].telegramId))
      && (forall i, j :: 0 <= i < j < n ==> top[i].telegramId != top[j].telegramId)
      && (forall i, j :: 0 <= i < j < n ==> top[i].points >= top[j].points)
      && (forall u, i :: u in users && u !in Ids(top) && 0 <= i < n ==> users[u].points <= top[i].points)
  {
    var prefix := ranked[..n];
    assert forall i :: 0 <= i < n ==> prefix[i] == ranked[i];
    var top := Listing(users, prefix);
    assert forall i :: 0 <= i < n ==> top[i] == Summary(users, ranked[i]);
    assert forall k :: 0 <= k < n ==> ranked[k] in Ids(top) by {
      forall k | 0 <= k < n
        ensures ranked[k] in Ids(top)
      {
        assert top[k] in top;
      }
    }
    forall u, i | u in users && u !in Ids(top) && 0 <= i < n
      ensures users[u].points <= top[i].points
    {
      var k :| 0 <= k < |ranked| && ranked[k] == u;
    }
  }

  /** GetUserReferrals(id): exactly the users id referred, by points. */
  ghost function GetUserReferrals(db: Db, id: UserId): (refs: seq<Ranked>)
    ensures forall i :: 0 <= i < |refs| ==>
      refs[i].telegramId in db.users && refs[i] == Summary(db.users, refs[i].telegramId)
      && db.users[refs[i].telegramId].referrerId == Some(id)
    ensures forall u :: u in db.users && db.users[u].referrerId == Some(id) ==> u in Ids(refs)
    ensures forall i, j :: 0 <= i < j < |refs| ==> refs[i].telegramId != refs[j].telegramId
    ensures forall i, j :: 0 <= i < j < |refs| ==> refs[i].points >= refs[j].points
  {
    var referred := set u | u in db.users && db.users[u].referrerId == Some(id);
    var ranked := RankByPoints(db.users, referred);
    var refs := Listing(db.users, ranked);
    forall u | u in referred
      ensures u in Ids(refs)
    {
      var k :| 0 <= k < |ranked| && ranked[k] == u;
      assert refs[k] in refs;
    }
    refs
  }
}
