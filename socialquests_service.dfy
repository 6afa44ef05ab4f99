/** internal/service/socialquests.go: the social-quest service over the
    repository. Reads are passed through with their errors wrapped; a claim
    looks the quest up, claims it and only then credits its reward;
    validation kinds are stored upper-cased. */
module SocialQuestService {
  import opened Common
  import opened Tables
  import opened UserRepository
  import opened SocialQuestRepository

  // ---------------------------------------------------------------------
  // GetUserQuests / GetQuestByID
  // ---------------------------------------------------------------------

  /** Both repository reads, or the first one's error wrapped. The
      validation-status read cannot fail against the in-memory tables. */
  method GetUserQuests(r: Repository, user: UserId)
    returns (res: Result<(seq<SocialQuest>, seq<UserSocialQuest>, set<QuestValidation>), Error>)
    requires forall q :: q in r.db.socialQuests ==> NamesResolve(r.db, q)
    ensures res.Err? <==> MissingRow(r.db, user)
    ensures res.Err? ==> res.error == Wrap("failed to get quests data", ScanNull)
    ensures res.Ok? ==> ListsQuests(r.db, user, res.value.0, res.value.1)
    ensures res.Ok? ==> res.value.2 == UserValidations(r.db, user)
  {
    var data := GetQuestsData(r, user);
    if data.Err? {
      return Err(Wrap("failed to get quests data", data.error));
    }
    var status := UserValidations(r.db, user);
    return Ok((data.value.0, data.value.1, status));
  }

  /** The error GetQuestByID reports when the quest's row cannot be read. */
  const QuestRowUnreadable: Error := Wrap("failed to get quest data", Wrap("failed to get quest", ScanNull))

  method GetQuestByID(r: Repository, user: UserId, quest: QuestId)
    returns (res: Result<(SocialQuest, UserSocialQuest, set<QuestValidation>), Error>)
    requires NamesResolve(r.db, quest)
    // a quest the repository does not find is the service's ErrQuestNotFound
    ensures quest !in r.db.socialQuests ==> res == Err(SvcQuestNotFound)
    ensures quest in r.db.socialQuests && (user, quest) !in r.db.usersSocialQuests ==>
      res == Err(QuestRowUnreadable)
    ensures quest in r.db.socialQuests && (user, quest) in r.db.usersSocialQuests ==>
      && res.Ok?
      && Describes(r.db, quest, res.value.0)
      && res.value.1 == UserQuestOf(r.db, user, quest)
      && res.value.2 == UserValidations(r.db, user)
  {
    var data := GetQuestDataByID(r, user, quest);
    if data.Err? {
      if Is(data.error, RepoNotFound) {
        return Err(SvcQuestNotFound);
      }
      return Err(Wrap("failed to get quest data", data.error));
    }
    var status := UserValidations(r.db, user);
    return Ok((data.value.0, data.value.1, status));
  }

  // ---------------------------------------------------------------------
  // ClaimQuest
  // ---------------------------------------------------------------------

  /** The switch on the repository's claim error. */
  function ClaimErrorOf(e: Error): (m: Error)
    ensures Is(e, RepoNotFound) ==> m == SvcQuestNotFound
    ensures !Is(e, RepoNotFound) && Is(e, RepoQuestNotStarted) ==> m == SvcQuestNotStarted
    ensures !Is(e, RepoNotFound) && !Is(e, RepoQuestNotStarted) && Is(e, RepoQuestAlreadyClaimed) ==>
      m == SvcQuestAlreadyClaimed
    // anything else keeps its cause reachable through errors.Is
    ensures !Is(e, RepoNotFound) && !Is(e, RepoQuestNotStarted) && !Is(e, RepoQuestAlreadyClaimed) ==>
      && m == Wrap("failed to claim quest", e)
      && forall t :: Is(e, t) ==> Is(m, t)
  {
    if Is(e, RepoNotFound) then SvcQuestNotFound
    else if Is(e, RepoQuestNotStarted) then SvcQuestNotStarted
    else if Is(e, RepoQuestAlreadyClaimed) then SvcQuestAlreadyClaimed
    else Wrap("failed to claim quest", e)
  }

  /** Every refusal of the conditional claim becomes one of the service's
      three claim errors, each for its own reason. */
  lemma RefusedClaimsAreClassified(rows: map<(UserId, QuestId), UserQuestRow>, user: UserId, quest: QuestId, now: Time)
    requires ClaimRow(rows, user, quest, now).Err?
    ensures var m := ClaimErrorOf(ClaimRow(rows, user, quest, now).error);
      && ((user, quest) !in rows <==> m == SvcQuestNotFound)
      && ((user, quest) in rows && rows[(user, quest)].startedAt.None? <==> m == SvcQuestNotStarted)
      && ((user, quest) in rows && rows[(user, quest)].startedAt.Some? <==> m == SvcQuestAlreadyClaimed)
  {
  }

  /** What a claim does to the database and what it reports: the lookup, the
      claim, then the credit. A failed credit leaves the claim in place. */
  function ClaimOutcome(db: Db, user: UserId, quest: QuestId, now: Time): (out: (Db, Option<Error>))
    // success: the quest is completed and exactly its reward is credited
    ensures out.1.None? <==> quest in db.socialQuests && Claimable(db.usersSocialQuests, user, quest) && user in db.users
    ensures out.1.None? ==>
      && out.0.usersSocialQuests == ClaimRow(db.usersSocialQuests, user, quest, now).value
      && out.0.users == Credit(db.users, user, db.socialQuests[quest].pointReward).value
      && out.0 == db.(usersSocialQuests := out.0.usersSocialQuests, users := out.0.users)
    // a claim that does not go through changes nothing and credits nothing
    ensures !(quest in db.socialQuests && Claimable(db.usersSocialQuests, user, quest)) ==> out.0 == db
    ensures quest !in db.socialQuests ==> out.1 == Some(SvcQuestNotFound)
  {
    if quest !in db.socialQuests then (db, Some(SvcQuestNotFound))
    else if (user, quest) !in db.usersSocialQuests then (db, Some(QuestRowUnreadable))
    else
      match ClaimRow(db.usersSocialQuests, user, quest, now)
      case Err(e) => (db, Some(ClaimErrorOf(e)))
      case Ok(rows) =>
        var claimed := db.(usersSocialQuests := rows);
        match Credit(claimed.users, user, db.socialQuests[quest].pointReward)
        case Err(e) => (claimed, Some(Wrap("failed to update user points", e)))
        case Ok(users) => (claimed.(users := users), None)
  }

  method ClaimQuest(r: Repository, user: UserId, quest: QuestId, now: Time) returns (err: Option<Error>)
    requires NamesResolve(r.db, quest)
    modifies r
    ensures (r.db, err) == ClaimOutcome(old(r.db), user, quest, now)
  {
    var found := GetQuestByID(r, user, quest);
    if found.Err? {
      return Some(found.error);
    }
    var reward := found.value.0.pointReward;
    var claimErr := SocialQuestRepository.ClaimQuest(r, user, quest, now);
    if claimErr.Some? {
      return Some(ClaimErrorOf(claimErr.value));
    }
    var creditErr := UpdateUserPoints(r, user, reward);
    if creditErr.Some? {
      return Some(Wrap("failed to update user points", creditErr.value));
    }
    return None;
  }

  /** In a consistent database a started quest pays its reward to the user
      (and the referrer's bonus) the first time, and the second claim is
      refused as already claimed with nothing changed. */
  lemma ClaimPaysOnce(db: Db, user: UserId, quest: QuestId, t1: Time, t2: Time)
    requires Valid(db)
    requires quest in db.socialQuests && Claimable(db.usersSocialQuests, user, quest)
    ensures ClaimOutcome(db, user, quest, t1).1.None?
    ensures var after := ClaimOutcome(db, user, quest, t1).0;
      && after.users[user].points ==
         db.users[user].points + Gain(db.users, user, db.socialQuests[quest].pointReward, user)
      && ClaimOutcome(after, user, quest, t2) == (after, Some(SvcQuestAlreadyClaimed))
  {
    assert user in db.users;
    var after := ClaimOutcome(db, user, quest, t1).0;
    ClaimTwice(db.usersSocialQuests, user, quest, t1, t2);
    assert after.usersSocialQuests[(user, quest)].completed;
  }

  /** In a consistent database a registered user's claim either pays or is
      refused with one of the three claim errors; the credit cannot fail. */
  lemma ValidClaimErrors(db: Db, user: UserId, quest: QuestId, now: Time)
    requires Valid(db)
    requires user in db.users
    ensures var err := ClaimOutcome(db, user, quest, now).1;
      err.None? || err == Some(SvcQuestNotFound) || err == Some(SvcQuestNotStarted)
      || err == Some(SvcQuestAlreadyClaimed)
  {
    if quest in db.socialQuests {
      assert (user, quest) in db.usersSocialQuests;
      if !Claimable(db.usersSocialQuests, user, quest) {
        RefusedClaimsAreClassified(db.usersSocialQuests, user, quest, now);
      }
    }
  }

  // ---------------------------------------------------------------------
  // CreateSocialQuest
  // ---------------------------------------------------------------------

  /** The quest's own id on success; uuid.Nil and the wrapped error otherwise. */
  method CreateSocialQuest(r: Repository, quest: SocialQuest, now: Time) returns (id: QuestId, err: Option<Error>)
    modifies r
    ensures var c := CreateQuest(old(r.db), quest, now);
      && (c.Ok? ==> id == quest.questId && err.None? && r.db == c.value)
      && (c.Err? ==> id == NilQuestId && err == Some(Wrap("failed to create social quest", c.error)) && r.db == old(r.db))
  {
    var e := SocialQuestRepository.CreateSocialQuest(r, quest, now);
    if e.Some? {
      return NilQuestId, Some(Wrap("failed to create social quest", e.value));
    }
    return quest.questId, None;
  }

  // ---------------------------------------------------------------------
  // CreateValidationKind
  // ---------------------------------------------------------------------

  /** model.QuestValidationKind: the service overwrites its name in place. */
  class QuestValidationKind {
    var validationId: ValidationId
    var validationName: string

    constructor (id: ValidationId, name: string)
      ensures validationId == id && validationName == name
    {
      validationId := id;
      validationName := name;
    }
  }

  /** strings.ToUpper on one character, for the ASCII letters. */
  function UpperChar(c: char): (u: char)
    ensures !('a' <= u <= 'z')
    ensures 'a' <= c <= 'z' ==> u as int == c as int - 32
    ensures !('a' <= c <= 'z') ==> u == c
  {
    if 'a' <= c <= 'z' then (c as int - 32) as char else c
  }

  /** strings.ToUpper. */
  function ToUpper(s: string): (u: string)
    ensures |u| == |s|
    ensures forall i :: 0 <= i < |s| ==> u[i] == UpperChar(s[i])
  {
    seq(|s|, i requires 0 <= i < |s| => UpperChar(s[i]))
  }

  /** A name that upper-casing leaves alone. */
  predicate IsUpper(s: string)
  {
    forall i :: 0 <= i < |s| ==> !('a' <= s[i] <= 'z')
  }

  /** Upper-casing is idempotent, so the handler's and the service's
      upper-casing together store the same name as either alone. */
  lemma UpperIdempotent(s: string)
    ensures IsUpper(ToUpper(s))
    ensures ToUpper(ToUpper(s)) == ToUpper(s)
  {
    var u := ToUpper(s);
    assert forall i :: 0 <= i < |u| ==> UpperChar(u[i]) == u[i];
  }

  /** Every stored validation kind name is upper case. */
  predicate KindNamesUpper(db: Db)
  {
    forall v :: v in db.validationKinds ==> IsUpper(db.validationKinds[v])
  }

  method CreateValidationKind(r: Repository, kind: QuestValidationKind) returns (err: Option<Error>)
    modifies r, kind
    // an empty name is refused before anything is written
    ensures old(kind.validationName) == "" ==>
      err == Some(Message("validation name is required")) && r.db == old(r.db) && kind.validationName == ""
    // otherwise the name is upper-cased in place and stored under the next id
    ensures old(kind.validationName) != "" ==>
      && kind.validationName == ToUpper(old(kind.validationName))
      && (r.db, err) == AddKind(old(r.db), kind.validationName)
    ensures kind.validationId == old(kind.validationId)
  {
    if kind.validationName == "" {
      return Some(Message("validation name is required"));
    }
    kind.validationName := ToUpper(kind.validationName);
    err := SocialQuestRepository.CreateValidationKind(r, kind.validationName);
  }

  /** Kinds created through the service keep every stored name upper case. */
  lemma CreatedKindsStayUpper(db: Db, name: string)
    requires KindNamesUpper(db)
    ensures KindNamesUpper(AddKind(db, ToUpper(name)).0)
  {
    UpperIdempotent(name);
  }
}
