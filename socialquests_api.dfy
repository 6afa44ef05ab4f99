/** internal/api/socialquests.go: the social-quest HTTP handlers, with the
    transport reduced to a status code and a response value. A path
    parameter is given as None when it does not parse (an int64 telegram_id,
    a uuid quest id). */
module SocialQuestApi {
  import opened Common
  import opened Tables
  import opened SocialQuestRepository
  import opened SocialQuestService

  const StatusOK := 200
  const StatusCreated := 201
  const StatusBadRequest := 400
  const StatusForbidden := 403
  const StatusNotFound := 404
  const StatusConflict := 409
  const StatusInternalServerError := 500

  /** The handler's own QuestValidation, as it goes out in JSON. */
  datatype ValidationView = ValidationView(validationId: ValidationId, validationName: string)

  datatype QuestResponse = QuestResponse(
    questId: QuestId,
    image: string,
    title: string,
    description: string,
    pointReward: int,
    completed: bool,
    startedAt: Option<int>,
    finishedAt: Option<int>,
    validationsRequired: seq<ValidationView>,
    validationsComplete: seq<ValidationView>)

  function View(v: QuestValidation): ValidationView
  {
    ValidationView(v.validationId, v.validationName)
  }

  /** The validations, each copied into the handler's type, in order. */
  function Views(vs: seq<QuestValidation>): (out: seq<ValidationView>)
    ensures |out| == |vs|
    ensures forall j :: 0 <= j < |vs| ==> out[j] == View(vs[j])
  {
    seq(|vs|, j requires 0 <= j < |vs| => View(vs[j]))
  }

  // ---------------------------------------------------------------------
  // The required and completed validation lists
  // ---------------------------------------------------------------------

  /** The `validationsRequired` loop: one entry per validation, assigned by
      index. */
  method RequiredValidations(vs: seq<QuestValidation>) returns (required: seq<ValidationView>)
    ensures required == Views(vs)
  {
    required := seq(|vs|, _ => ValidationView(0, ""));
    for j := 0 to |vs|
      invariant |required| == |vs|
      invariant forall k :: 0 <= k < j ==> required[k] == View(vs[k])
    {
      required := required[j := View(vs[j])];
    }
  }

  /** The validations the user has passed, in the quest's order: the
      reference definition of the `completedValidations` loop. */
  function Completed(vs: seq<QuestValidation>, done: set<QuestValidation>): (out: seq<ValidationView>)
    ensures |out| <= |vs|
    ensures forall x :: x in out <==> exists v :: v in vs && v in done && View(v) == x
  {
    if vs == [] then []
    else
      var last := vs[|vs| - 1];
      var init := vs[..|vs| - 1];
      assert forall v :: v in vs <==> v in init || v == last;
      Completed(init, done) + (if last in done then [View(last)] else [])
  }

  method CompletedValidations(vs: seq<QuestValidation>, done: set<QuestValidation>)
    returns (completed: seq<ValidationView>)
    ensures completed == Completed(vs, done)
  {
    completed := [];
    for j := 0 to |vs|
      invariant completed == Completed(vs[..j], done)
    {
      assert vs[..j + 1][..j] == vs[..j];
      if vs[j] in done {
        completed := completed + [View(vs[j])];
      }
    }
    assert vs[..|vs|] == vs;
  }

  /** xs is ys with some elements left out, the rest in their order. */
  predicate IsSubsequence<T(==)>(xs: seq<T>, ys: seq<T>)
    decreases |ys|
  {
    if ys == [] then xs == []
    else
      (xs != [] && xs[|xs| - 1] == ys[|ys| - 1] && IsSubsequence(xs[..|xs| - 1], ys[..|ys| - 1]))
      || IsSubsequence(xs, ys[..|ys| - 1])
  }

  /** The completed list keeps the required list's order. */
  lemma {:induction false} CompletedIsSubsequence(vs: seq<QuestValidation>, done: set<QuestValidation>)
    ensures IsSubsequence(Completed(vs, done), Views(vs))
    decreases |vs|
  {
    if vs != [] {
      var init := vs[..|vs| - 1];
      var last := vs[|vs| - 1];
      CompletedIsSubsequence(init, done);
      assert Views(vs)[..|vs| - 1] == Views(init);
      var out := Completed(vs, done);
      if last in done {
        assert out[..|out| - 1] == Completed(init, done);
      } else {
        assert out == Completed(init, done);
      }
    }
  }

  /** A user who has passed every validation of the quest has them all
      complete, in the required order; one who has passed none has none. */
  lemma {:induction false} CompletedExtremes(vs: seq<QuestValidation>, done: set<QuestValidation>)
    ensures (forall v :: v in vs ==> v in done) ==> Completed(vs, done) == Views(vs)
    ensures (forall v :: v in vs ==> v !in done) ==> Completed(vs, done) == []
    decreases |vs|
  {
    if vs != [] {
      var init := vs[..|vs| - 1];
      assert forall v :: v in init ==> v in vs;
      CompletedExtremes(init, done);
      assert Views(vs) == Views(init) + [View(vs[|vs| - 1])];
    }
  }

  // ---------------------------------------------------------------------
  // Timestamps and the user-quest map
  // ---------------------------------------------------------------------

  /** started_at / finished_at: null exactly when the stored value is null,
      otherwise its Unix seconds (instants are already Unix seconds here). */
  function UnixOrNull(t: Option<Time>): (u: Option<int>)
    ensures u.None? <==> t.None?
    ensures t.Some? ==> u == Some(t.value)
  {
    match t
    case None => None
    case Some(at) => Some(at)
  }

  /** `userQuestMap`, filled by insertion: every listed quest id maps to the
      last user-quest listed with it. */
  method UserQuestMap(userQuests: seq<UserSocialQuest>) returns (m: map<QuestId, UserSocialQuest>)
    ensures forall q :: q in m <==> exists i :: 0 <= i < |userQuests| && userQuests[i].questId == q
    ensures forall i :: 0 <= i < |userQuests| ==>
      (forall j :: i < j < |userQuests| ==> userQuests[j].questId != userQuests[i].questId) ==>
      m[userQuests[i].questId] == userQuests[i]
  {
    m := map[];
    for k := 0 to |userQuests|
      invariant forall q :: q in m <==> exists i :: 0 <= i < k && userQuests[i].questId == q
      invariant forall i :: 0 <= i < k ==>
        (forall j :: i < j < k ==> userQuests[j].questId != userQuests[i].questId) ==>
        m[userQuests[i].questId] == userQuests[i]
    {
      var next := m[userQuests[k].questId := userQuests[k]];
      forall i | 0 <= i < k + 1 && (forall j :: i < j < k + 1 ==> userQuests[j].questId != userQuests[i].questId)
        ensures next[userQuests[i].questId] == userQuests[i]
      {
        if i < k {
          assert userQuests[k].questId != userQuests[i].questId;
        }
      }
      m := next;
    }
  }

  // ---------------------------------------------------------------------
  // Responses
  // ---------------------------------------------------------------------

  /** The response for one quest and the user's row for it. */
  method Respond(quest: SocialQuest, userQuest: UserSocialQuest, done: set<QuestValidation>)
    returns (resp: QuestResponse)
    ensures resp == QuestResponse(quest.questId, quest.image, quest.title, quest.description, quest.pointReward,
                                  userQuest.completed, UnixOrNull(userQuest.startedAt), UnixOrNull(userQuest.finishedAt),
                                  Views(quest.validations), Completed(quest.validations, done))
  {
    var required := RequiredValidations(quest.validations);
    var completed := CompletedValidations(quest.validations, done);
    var started, finished := None, None;
    if userQuest.startedAt.Some? {
      started := Some(userQuest.startedAt.value);
    }
    if userQuest.finishedAt.Some? {
      finished := Some(userQuest.finishedAt.value);
    }
    resp := QuestResponse(quest.questId, quest.image, quest.title, quest.description, quest.pointReward,
                          userQuest.completed, started, finished, required, completed);
  }

  /** `resp` answers for stored quest `quest` and the user's row for it: the
      user's flags and timestamps, every validation of the quest as required
      and, in the same order, those the user passed as complete. */
  ghost predicate Answers(db: Db, user: UserId, quest: QuestId, resp: QuestResponse)
  {
    && quest in db.socialQuests
    && (user, quest) in db.usersSocialQuests
    && var row := db.socialQuests[quest];
    && var uq := db.usersSocialQuests[(user, quest)];
    && resp.questId == quest
    && resp.image == row.image && resp.title == row.title && resp.description == row.description
    && resp.pointReward == row.pointReward
    && resp.completed == uq.completed
    && resp.startedAt == UnixOrNull(uq.startedAt)
    && resp.finishedAt == UnixOrNull(uq.finishedAt)
    && exists vs :: ListsValidations(db, quest, vs)
         && resp.validationsRequired == Views(vs)
         && resp.validationsComplete == Completed(vs, UserValidations(db, user))
  }

  lemma RespondAnswers(db: Db, user: UserId, sq: SocialQuest, uq: UserSocialQuest, resp: QuestResponse)
    requires Describes(db, sq.questId, sq)
    requires (user, sq.questId) in db.usersSocialQuests && uq == UserQuestOf(db, user, sq.questId)
    requires resp == QuestResponse(sq.questId, sq.image, sq.title, sq.description, sq.pointReward,
                                   uq.completed, UnixOrNull(uq.startedAt), UnixOrNull(uq.finishedAt),
                                   Views(sq.validations), Completed(sq.validations, UserValidations(db, user)))
    ensures Answers(db, user, sq.questId, resp)
  {
    assert ListsValidations(db, sq.questId, sq.validations);
  }

  /** Row i of a quest listing: a stored quest, beside the user's row for
      it, whose id no later user-quest repeats. */
  lemma ListedRow(db: Db, user: UserId, quests: seq<SocialQuest>, userQuests: seq<UserSocialQuest>, i: int)
    requires ListsQuests(db, user, quests, userQuests)
    requires 0 <= i < |quests|
    ensures Describes(db, quests[i].questId, quests[i])
    ensures (user, quests[i].questId) in db.usersSocialQuests
    ensures userQuests[i] == UserQuestOf(db, user, quests[i].questId)
    ensures userQuests[i].questId == quests[i].questId
    ensures forall j :: i < j < |userQuests| ==> userQuests[j].questId != userQuests[i].questId
  {
    assert forall j :: i < j < |userQuests| ==> userQuests[j].questId == quests[j].questId;
  }

  /** The loop building one response per listed quest, with the user's row
      for it looked up through the user-quest map. */
  method Responses(ghost db: Db, user: UserId, quests: seq<SocialQuest>, userQuests: seq<UserSocialQuest>,
                   done: set<QuestValidation>)
    returns (body: seq<QuestResponse>)
    requires ListsQuests(db, user, quests, userQuests)
    requires done == UserValidations(db, user)
    ensures |body| == |quests|
    ensures forall k :: 0 <= k < |quests| ==> body[k].questId == quests[k].questId
    ensures forall k :: 0 <= k < |quests| ==> Answers(db, user, body[k].questId, body[k])
  {
    var byQuest := UserQuestMap(userQuests);
    body := [];
    for i := 0 to |quests|
      invariant |body| == i
      invariant forall k :: 0 <= k < i ==> body[k].questId == quests[k].questId
      invariant forall k :: 0 <= k < i ==> Answers(db, user, body[k].questId, body[k])
    {
      ListedRow(db, user, quests, userQuests, i);
      var userQuest := byQuest[quests[i].questId];
      var resp := Respond(quests[i], userQuest, done);
      RespondAnswers(db, user, quests[i], userQuest, resp);
      body := body + [resp];
    }
  }

  /** GetUserQuests: 400 for a bad telegram_id, 500 when the service fails,
      otherwise 200 and one response per quest, in quest id order. */
  method GetUserQuests(r: Repository, telegramId: Option<UserId>) returns (status: int, body: seq<QuestResponse>)
    requires forall q :: q in r.db.socialQuests ==> NamesResolve(r.db, q)
    ensures telegramId.None? ==> status == StatusBadRequest && body == []
    ensures telegramId.Some? && MissingRow(r.db, telegramId.value) ==> status == StatusInternalServerError && body == []
    ensures telegramId.Some? && !MissingRow(r.db, telegramId.value) ==>
      && status == StatusOK
      && (forall i :: 0 <= i < |body| ==> Answers(r.db, telegramId.value, body[i].questId, body[i]))
      && (forall i, j :: 0 <= i < j < |body| ==> body[i].questId < body[j].questId)
      && (forall q :: q in r.db.socialQuests ==> exists i :: 0 <= i < |body| && body[i].questId == q)
  {
    if telegramId.None? {
      return StatusBadRequest, [];
    }
    var user := telegramId.value;
    var res := SocialQuestService.GetUserQuests(r, user);
    if res.Err? {
      return StatusInternalServerError, [];
    }
    var (quests, userQuests, done) := res.value;
    body := Responses(r.db, user, quests, userQuests, done);
    forall q | q in r.db.socialQuests
      ensures exists i :: 0 <= i < |body| && body[i].questId == q
    {
      var i :| 0 <= i < |quests| && quests[i].questId == q;
      assert body[i].questId == q;
    }
    return StatusOK, body;
  }

  /** GetQuestByID: 400 for a bad parameter, 404 for an unknown quest, 500
      for any other failure, otherwise 200 and the quest's response. */
  method GetQuestByID(r: Repository, telegramId: Option<UserId>, questId: Option<QuestId>)
    returns (status: int, body: Option<QuestResponse>)
    requires questId.Some? ==> NamesResolve(r.db, questId.value)
    ensures telegramId.None? || questId.None? ==> status == StatusBadRequest && body.None?
    ensures telegramId.Some? && questId.Some? ==>
      var (user, quest) := (telegramId.value, questId.value);
      && (quest !in r.db.socialQuests ==> status == StatusNotFound && body.None?)
      && (quest in r.db.socialQuests && (user, quest) !in r.db.usersSocialQuests ==>
            status == StatusInternalServerError && body.None?)
      && (quest in r.db.socialQuests && (user, quest) in r.db.usersSocialQuests ==>
            status == StatusOK && body.Some? && Answers(r.db, user, quest, body.value))
  {
    if telegramId.None? || questId.None? {
      return StatusBadRequest, None;
    }
    var user, quest := telegramId.value, questId.value;
    var res := SocialQuestService.GetQuestByID(r, user, quest);
    if res.Err? {
      if Is(res.error, SvcQuestNotFound) || Is(res.error, SvcUserNotFound) {
        return StatusNotFound, None;
      }
      return StatusInternalServerError, None;
    }
    var (sq, uq, done) := res.value;
    var resp := Respond(sq, uq, done);
    RespondAnswers(r.db, user, sq, uq, resp);
    return StatusOK, Some(resp);
  }

  // ---------------------------------------------------------------------
  // ClaimQuest and CreateValidationKind
  // ---------------------------------------------------------------------

  /** The status a claim's outcome is answered with. */
  function ClaimStatus(err: Option<Error>): (status: int)
    ensures err.None? <==> status == StatusOK
    ensures err == Some(SvcQuestNotFound) ==> status == StatusNotFound
    ensures err == Some(SvcQuestNotStarted) || err == Some(SvcQuestAlreadyClaimed) ==> status == StatusForbidden
    ensures err.Some? ==>
      (!Is(err.value, SvcQuestNotFound) && !Is(err.value, SvcQuestNotStarted) && !Is(err.value, SvcQuestAlreadyClaimed)
       <==> status == StatusInternalServerError)
  {
    match err
    case None => StatusOK
    case Some(e) =>
      if Is(e, SvcQuestNotFound) then StatusNotFound
      else if Is(e, SvcQuestNotStarted) then StatusForbidden
      else if Is(e, SvcQuestAlreadyClaimed) then StatusForbidden
      else StatusInternalServerError
  }

  /** ClaimQuest: 400 before any service call when a parameter is bad;
      otherwise the service's claim, answered by its outcome. */
  method ClaimQuest(r: Repository, telegramId: Option<UserId>, questId: Option<QuestId>, now: Time)
    returns (status: int)
    requires questId.Some? ==> NamesResolve(r.db, questId.value)
    modifies r
    ensures telegramId.None? || questId.None? ==> status == StatusBadRequest && r.db == old(r.db)
    ensures telegramId.Some? && questId.Some? ==>
      var out := ClaimOutcome(old(r.db), telegramId.value, questId.value, now);
      r.db == out.0 && status == ClaimStatus(out.1)
  {
    if telegramId.None? || questId.None? {
      return StatusBadRequest;
    }
    var err := SocialQuestService.ClaimQuest(r, telegramId.value, questId.value, now);
    if err.Some? {
      if Is(err.value, SvcQuestNotFound) {
        return StatusNotFound;
      } else if Is(err.value, SvcQuestNotStarted) {
        return StatusForbidden;
      } else if Is(err.value, SvcQuestAlreadyClaimed) {
        return StatusForbidden;
      }
      return StatusInternalServerError;
    }
    return StatusOK;
  }

  /** In a consistent database a registered user's claim is answered 200 when
      it pays, and otherwise 403 or 404, never 500. */
  lemma ClaimAnswers(db: Db, user: UserId, quest: QuestId, now: Time)
    requires Valid(db)
    requires user in db.users
    ensures var status := ClaimStatus(ClaimOutcome(db, user, quest, now).1);
      && (status == StatusOK <==> quest in db.socialQuests && Claimable(db.usersSocialQuests, user, quest))
      && (status == StatusOK || status == StatusForbidden || status == StatusNotFound)
  {
    ValidClaimErrors(db, user, quest, now);
  }

  /** CreateValidationKind: 400 for a missing name; otherwise the name is
      upper-cased and handed to the service, and the kind is created (201)
      or the failure reported (409 for ErrValidationNameExists, else 500). */
  method CreateValidationKind(r: Repository, name: string) returns (status: int)
    modifies r
    ensures name == "" ==> status == StatusBadRequest && r.db == old(r.db)
    ensures name != "" ==>
      var added := AddKind(old(r.db), ToUpper(name));
      && r.db == added.0
      && (added.1.None? ==> status == StatusCreated)
      && (added.1.Some? ==> status == StatusInternalServerError)
  {
    if name == "" {
      // binding:"required" refuses an empty string
      return StatusBadRequest;
    }
    var kind := new QuestValidationKind(0, ToUpper(name));
    UpperIdempotent(name);
    var err := SocialQuestService.CreateValidationKind(r, kind);
    if err.Some? {
      if Is(err.value, SvcValidationNameExists) {
        return StatusConflict;
      }
      return StatusInternalServerError;
    }
    return StatusCreated;
  }
}
