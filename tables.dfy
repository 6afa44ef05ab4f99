/** The PostgreSQL tables the repository reads and writes, held in memory:
    one map per table, keyed by the table's key. */
module Tables {
  import opened Common

  /** users.telegram_id (int64). */
  type UserId = int
  /** A uuid, stood for by the 128-bit number PostgreSQL orders uuids by. */
  type QuestId = int
  /** social_quest_validation_kinds.validation_id (a serial). */
  type ValidationId = int

  /** uuid.Nil. */
  const NilQuestId: QuestId := 0

  datatype UserRow = UserRow(
    handle: string,
    username: string,
    referrerId: Option<UserId>,
    referrals: int,
    points: int,
    joinWaitlist: Option<bool>,
    registrationDate: Time,
    authDate: Time)

  /** One farm_game row. */
  datatype FarmRow = FarmRow(isInProgress: bool, startedAt: Option<Time>, isPreviousClaimed: bool)

  /** One daily_quests row. */
  datatype DailyRow = DailyRow(lastClaimedAt: Option<Time>, consecutiveDaysClaimed: int)

  /** One social_quests row (its key is the map key). */
  datatype SocialQuestRow = SocialQuestRow(
    image: string,
    title: string,
    description: string,
    pointReward: int,
    createdAt: Time)

  /** One users_social_quests row. */
  datatype UserQuestRow = UserQuestRow(completed: bool, startedAt: Option<Time>, finishedAt: Option<Time>)

  datatype Db = Db(
    users: map<UserId, UserRow>,
    farmGame: map<UserId, FarmRow>,
    /** players.total_energy by players.user_id */
    players: map<UserId, int>,
    /** energy_uses.used_at by (user_id, energy_number), the table's unique key */
    energyUses: map<(UserId, int), Time>,
    dailyQuests: map<UserId, DailyRow>,
    socialQuests: map<QuestId, SocialQuestRow>,
    /** social_quest_validation_kinds.validation_name by validation_id */
    validationKinds: map<ValidationId, string>,
    /** the next value of the validation_id serial */
    nextValidationId: ValidationId,
    /** quest_validations as (quest_id, validation_id) pairs */
    questValidations: set<(QuestId, ValidationId)>,
    /** users_social_quests by (user_telegram_id, social_quest_id) */
    usersSocialQuests: map<(UserId, QuestId), UserQuestRow>,
    /** user_validations as (user_telegram_id, validation_id) pairs */
    userValidations: set<(UserId, ValidationId)>,
    referralQuests: set<QuestId>,
    /** referral_quests_users.completed by (user_telegram_id, quest_id) */
    referralQuestsUsers: map<(UserId, QuestId), bool>)

  /** A database with no rows, the serial at its first value. */
  const EmptyDb: Db := Db(map[], map[], map[], map[], map[], map[], map[], 1, {}, map[], {}, {}, map[])

  /** The invariant every writer in the model keeps: streaks stay within the
      seven-day table, per-user rows belong to registered users and every
      registered user has a row for every social quest, and quest validations
      name existing quests and validation kinds. */
  predicate Valid(db: Db)
  {
    && (forall u :: u in db.dailyQuests ==> 0 <= db.dailyQuests[u].consecutiveDaysClaimed <= 7)
    && db.dailyQuests.Keys <= db.users.Keys
    && (forall k :: k in db.usersSocialQuests ==> k.0 in db.users && k.1 in db.socialQuests)
    && (forall u, q :: u in db.users && q in db.socialQuests ==> (u, q) in db.usersSocialQuests)
    && (forall k :: k in db.referralQuestsUsers ==> k.0 in db.users && k.1 in db.referralQuests)
    && (forall p :: p in db.questValidations ==> p.0 in db.socialQuests && p.1 in db.validationKinds)
    && (forall v :: v in db.validationKinds ==> v < db.nextValidationId)
  }

  /** The repository: a handle on the database, whose contents the
      operations read and replace. */
  class Repository {
    var db: Db

    constructor (initial: Db)
      ensures db == initial
    {
      db := initial;
    }
  }
}
