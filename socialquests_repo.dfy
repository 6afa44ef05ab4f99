/** The social-quest part of internal/repository/socialquests.go: the
    conditional claim and how a refused claim is classified, quest creation,
    validation kinds and their assignment to quests, and the reads that
    assemble a quest together with its list of required validations. */
module SocialQuestRepository {
  import opened Common
  import opened Tables

  // ---------------------------------------------------------------------
  // The records of internal/model/socialquests.go
  // ---------------------------------------------------------------------

  datatype QuestValidation = QuestValidation(validationId: ValidationId, validationName: string)

  datatype SocialQuest = SocialQuest(
    questId: QuestId,
    image: string,
    title: string,
    description: string,
    pointReward: int,
    createdAt: Time,
    validations: seq<QuestValidation>)

  datatype UserSocialQuest = UserSocialQuest(
    questId: QuestId,
    userId: UserId,
    completed: bool,
    startedAt: Option<Time>,
    finishedAt: Option<Time>)

  /** What database/sql reports when a NULL `completed` (no users_social_quests
      row for the user) is scanned into a Go bool: the ninth selected column
      (index 8) fails the driver's bool conversion. */
  const ScanNull: Error := Message("sql: Scan error on column index 8, name \"completed\": sql/driver: couldn't convert <nil> (<nil>) into type bool")
  /** A foreign key violation raised by PostgreSQL. */
  const ForeignKeyViolation: Error := Message("insert or update violates foreign key constraint")

  // ---------------------------------------------------------------------
  // ClaimQuest
  // ---------------------------------------------------------------------

  /** The row the conditional UPDATE matches: it exists, it was started and
      it is not completed yet. */
  predicate Claimable(rows: map<(UserId, QuestId), UserQuestRow>, user: UserId, quest: QuestId)
  {
    (user, quest) in rows && rows[(user, quest)].startedAt.Some? && !rows[(user, quest)].completed
  }

  /** The conditional update, and the classification of a refusal by
      re-reading the row. */
  function ClaimRow(rows: map<(UserId, QuestId), UserQuestRow>, user: UserId, quest: QuestId, now: Time)
    : (r: Result<map<(UserId, QuestId), UserQuestRow>, Error>)
    ensures r.Ok? <==> Claimable(rows, user, quest)
    // success completes the row and stamps it, and touches no other row
    ensures r.Ok? ==> r.value.Keys == rows.Keys
    ensures r.Ok? ==> r.value[(user, quest)] == UserQuestRow(true, rows[(user, quest)].startedAt, Some(now))
    ensures r.Ok? ==> forall k :: k in rows && k != (user, quest) ==> r.value[k] == rows[k]
    // a refusal names its reason; "not started" is checked before "completed"
    ensures (user, quest) !in rows ==> r == Err(RepoNotFound)
    ensures (user, quest) in rows && rows[(user, quest)].startedAt.None? ==> r == Err(RepoQuestNotStarted)
    ensures (user, quest) in rows && rows[(user, quest)].startedAt.Some? && rows[(user, quest)].completed ==>
      r == Err(RepoQuestAlreadyClaimed)
  {
    var key := (user, quest);
    if Claimable(rows, user, quest) then
      Ok(rows[key := rows[key].(completed := true, finishedAt := Some(now))])
    else if key !in rows then Err(RepoNotFound)
    else if rows[key].startedAt.None? then Err(RepoQuestNotStarted)
    else Err(RepoQuestAlreadyClaimed)
  }

  method ClaimQuest(r: Repository, user: UserId, quest: QuestId, now: Time) returns (err: Option<Error>)
    modifies r
    ensures var c := ClaimRow(old(r.db.usersSocialQuests), user, quest, now);
      && (c.Ok? ==> err.None? && r.db == old(r.db).(usersSocialQuests := c.value))
      && (c.Err? ==> err == Some(c.error) && r.db == old(r.db))
  {
    var rows := r.db.usersSocialQuests;
    var key := (user, quest);
    // UPDATE ... WHERE completed = false AND started_at IS NOT NULL
    if key in rows && !rows[key].completed && rows[key].startedAt.Some? {
      r.db := r.db.(usersSocialQuests := rows[key := rows[key].(completed := true, finishedAt := Some(now))]);
      return None;
    }
    // no row was affected: read the row back to say why
    if key !in rows {
      return Some(RepoNotFound);
    }
    if rows[key].startedAt.None? {
      return Some(RepoQuestNotStarted);
    }
    // with no concurrent writer the row is necessarily completed here
    return Some(RepoQuestAlreadyClaimed);
  }

  /** A sequence of claim requests, each (user, quest, time), applied in
      order; the result is the final rows and the keys whose claim went
      through, in order. */
  function ReplayClaims(rows: map<(UserId, QuestId), UserQuestRow>, calls: seq<(UserId, QuestId, Time)>)
    : (map<(UserId, QuestId), UserQuestRow>, seq<(UserId, QuestId)>)
  {
    if calls == [] then (rows, [])
    else
      var c := calls[0];
      match ClaimRow(rows, c.0, c.1, c.2)
      case Ok(next) =>
        var (final, granted) := ReplayClaims(next, calls[1..]);
        (final, [(c.0, c.1)] + granted)
      case Err(_) => ReplayClaims(rows, calls[1..])
  }

  /** After a granted claim, the rows still claimable were claimable before,
      and the one just claimed is not among them. */
  lemma ClaimNarrows(rows: map<(UserId, QuestId), UserQuestRow>, user: UserId, quest: QuestId, now: Time)
    requires ClaimRow(rows, user, quest, now).Ok?
    ensures var next := ClaimRow(rows, user, quest, now).value;
      forall u: UserId, q: QuestId :: Claimable(next, u, q) ==> Claimable(rows, u, q) && (u, q) != (user, quest)
  {
  }

  /** However many times claims are sent, each user-quest row is granted at
      most once, and only a row that was started and not completed at the
      outset is ever granted. */
  lemma {:induction false} ClaimGrantedAtMostOnce(rows: map<(UserId, QuestId), UserQuestRow>,
                                                   calls: seq<(UserId, QuestId, Time)>)
    ensures forall i, j :: 0 <= i < j < |ReplayClaims(rows, calls).1| ==>
      ReplayClaims(rows, calls).1[i] != ReplayClaims(rows, calls).1[j]
    ensures forall i :: 0 <= i < |ReplayClaims(rows, calls).1| ==>
      Claimable(rows, ReplayClaims(rows, calls).1[i].0, ReplayClaims(rows, calls).1[i].1)
    decreases |calls|
  {
    if calls != [] {
      var c := calls[0];
      var claim := ClaimRow(rows, c.0, c.1, c.2);
      if claim.Ok? {
        var next := claim.value;
        ClaimGrantedAtMostOnce(next, calls[1..]);
        ClaimNarrows(rows, c.0, c.1, c.2);
        var rest := ReplayClaims(next, calls[1..]).1;
        assert ReplayClaims(rows, calls).1 == [(c.0, c.1)] + rest;
        assert forall i :: 0 <= i < |rest| ==> Claimable(next, rest[i].0, rest[i].1);
        assert forall i :: 0 <= i < |rest| ==> Claimable(rows, rest[i].0, rest[i].1) && rest[i] != (c.0, c.1);
      } else {
        ClaimGrantedAtMostOnce(rows, calls[1..]);
        var rest := ReplayClaims(rows, calls[1..]).1;
        assert ReplayClaims(rows, calls).1 == rest;
        assert forall i :: 0 <= i < |rest| ==> Claimable(rows, rest[i].0, rest[i].1);
      }
    }
  }

  /** Claiming a quest a second time is refused as already claimed. */
  lemma ClaimTwice(rows: map<(UserId, QuestId), UserQuestRow>, user: UserId, quest: QuestId, t1: Time, t2: Time)
    requires Claimable(rows, user, quest)
    ensures ClaimRow(rows, user, quest, t1).Ok?
    ensures ClaimRow(ClaimRow(rows, user, quest, t1).value, user, quest, t2) == Err(RepoQuestAlreadyClaimed)
  {
    var next := ClaimRow(rows, user, quest, t1).value;
    assert next[(user, quest)].completed;
  }

  // ---------------------------------------------------------------------
  // AddQuestValidation / RemoveQuestValidation
  // ---------------------------------------------------------------------

  function AddValidation(db: Db, quest: QuestId, vid: ValidationId): (r: Result<Db, Error>)
    // checked in this order: the quest, the kind, the pair
    ensures quest !in db.socialQuests ==> r == Err(RepoQuestNotFound)
    ensures quest in db.socialQuests && vid !in db.validationKinds ==> r == Err(RepoValidationNotFound)
    ensures quest in db.socialQuests && vid in db.validationKinds && (quest, vid) in db.questValidations ==>
      r == Err(RepoValidationAlreadyExists)
    // otherwise exactly that one pair is added
    ensures r.Ok? ==>
      && (quest, vid) !in db.questValidations
      && r.value.questValidations - {(quest, vid)} == db.questValidations
      && (quest, vid) in r.value.questValidations
      && r.value == db.(questValidations := r.value.questValidations)
  {
    if quest !in db.socialQuests then Err(RepoQuestNotFound)
    else if vid !in db.validationKinds then Err(RepoValidationNotFound)
    else if (quest, vid) in db.questValidations then Err(RepoValidationAlreadyExists)
    else Ok(db.(questValidations := db.questValidations + {(quest, vid)}))
  }

  function RemoveValidation(db: Db, quest: QuestId, vid: ValidationId): (r: Result<Db, Error>)
    ensures r.Err? <==> (quest, vid) !in db.questValidations
    ensures r.Err? ==> r.error == RepoNotFound
    ensures r.Ok? ==>
      && (quest, vid) !in r.value.questValidations
      && r.value.questValidations + {(quest, vid)} == db.questValidations
      && r.value == db.(questValidations := r.value.questValidations)
  {
    if (quest, vid) in db.questValidations then
      Ok(db.(questValidations := db.questValidations - {(quest, vid)}))
    else Err(RepoNotFound)
  }

  method AddQuestValidation(r: Repository, quest: QuestId, vid: ValidationId) returns (err: Option<Error>)
    modifies r
    ensures var a := AddValidation(old(r.db), quest, vid);
      && (a.Ok? ==> err.None? && r.db == a.value)
      && (a.Err? ==> err == Some(a.error) && r.db == old(r.db))
  {
    var db := r.db;
    if quest !in db.socialQuests {
      return Some(RepoQuestNotFound);
    }
    if vid !in db.validationKinds {
      return Some(RepoValidationNotFound);
    }
    if (quest, vid) in db.questValidations {
      return Some(RepoValidationAlreadyExists);
    }
    r.db := db.(questValidations := db.questValidations + {(quest, vid)});
    return None;
  }

  method RemoveQuestValidation(r: Repository, quest: QuestId, vid: ValidationId) returns (err: Option<Error>)
    modifies r
    ensures var d := RemoveValidation(old(r.db), quest, vid);
      && (d.Ok? ==> err.None? && r.db == d.value)
      && (d.Err? ==> err == Some(d.error) && r.db == old(r.db))
  {
    var db := r.db;
    if (quest, vid) !in db.questValidations {
      // DELETE affected no row
      return Some(RepoNotFound);
    }
    r.db := db.(questValidations := db.questValidations - {(quest, vid)});
    return None;
  }

  /** Removing a validation just added gives back the database as it was. */
  lemma RemoveUndoesAdd(db: Db, quest: QuestId, vid: ValidationId)
    requires AddValidation(db, quest, vid).Ok?
    ensures RemoveValidation(AddValidation(db, quest, vid).value, quest, vid) == Ok(db)
  {
    var added := AddValidation(db, quest, vid).value;
    assert added.questValidations - {(quest, vid)} == db.questValidations;
  }

  /** In a consistent database, adding back a validation just removed gives
      back the database as it was. */
  lemma AddUndoesRemove(db: Db, quest: QuestId, vid: ValidationId)
    requires Valid(db)
    requires RemoveValidation(db, quest, vid).Ok?
    ensures AddValidation(RemoveValidation(db, quest, vid).value, quest, vid) == Ok(db)
  {
    var removed := RemoveValidation(db, quest, vid).value;
    assert (quest, vid) in db.questValidations;
    assert removed.questValidations + {(quest, vid)} == db.questValidations;
  }

  /** Adding the same validation twice is refused the second time, and
      removing it twice is refused the second time. */
  lemma SecondAddOrRemoveFails(db: Db, quest: QuestId, vid: ValidationId)
    ensures AddValidation(db, quest, vid).Ok? ==>
      AddValidation(AddValidation(db, quest, vid).value, quest, vid) == Err(RepoValidationAlreadyExists)
    ensures RemoveValidation(db, quest, vid).Ok? ==>
      RemoveValidation(RemoveValidation(db, quest, vid).value, quest, vid) == Err(RepoNotFound)
  {
  }

  lemma ValidationChangesKeepValid(db: Db, quest: QuestId, vid: ValidationId)
    requires Valid(db)
    ensures AddValidation(db, quest, vid).Ok? ==> Valid(AddValidation(db, quest, vid).value)
    ensures RemoveValidation(db, quest, vid).Ok? ==> Valid(RemoveValidation(db, quest, vid).value)
  {
  }

  // ---------------------------------------------------------------------
  // CreateValidationKind
  // ---------------------------------------------------------------------

  /** INSERT with the serial's default id. PostgreSQL draws the id from the
      sequence before the row is written, so the sequence advances even when
      the insert fails. */
  function AddKind(db: Db, name: string): (r: (Db, Option<Error>))
    ensures r.0.nextValidationId == db.nextValidationId + 1
    ensures r.1.None? <==> db.nextValidationId !in db.validationKinds
    ensures r.1.None? ==>
      && r.0.validationKinds.Keys == db.validationKinds.Keys + {db.nextValidationId}
      && r.0.validationKinds[db.nextValidationId] == name
      && (forall v :: v in db.validationKinds ==> r.0.validationKinds[v] == db.validationKinds[v])
    ensures r.0.validationKinds == db.validationKinds || r.1.None?
    ensures r.0 == db.(validationKinds := r.0.validationKinds, nextValidationId := r.0.nextValidationId)
  {
    var id := db.nextValidationId;
    if id in db.validationKinds then
      (db.(nextValidationId := id + 1), Some(Wrap("failed to create validation kind", DuplicateKey)))
    else
      (db.(validationKinds := db.validationKinds[id := name], nextValidationId := id + 1), None)
  }

  method CreateValidationKind(r: Repository, name: string) returns (err: Option<Error>)
    modifies r
    ensures (r.db, err) == AddKind(old(r.db), name)
  {
    var id := r.db.nextValidationId;
    r.db := r.db.(nextValidationId := id + 1);
    if id in r.db.validationKinds {
      return Some(Wrap("failed to create validation kind", DuplicateKey));
    }
    r.db := r.db.(validationKinds := r.db.validationKinds[id := name]);
    return None;
  }

  /** In a consistent database a new kind is always stored, under an id
      no other kind has, and the database stays consistent. */
  lemma AddKindKeepsValid(db: Db, name: string)
    requires Valid(db)
    ensures AddKind(db, name).1.None?
    ensures Valid(AddKind(db, name).0)
  {
  }

  // ---------------------------------------------------------------------
  // CreateSocialQuest
  // ---------------------------------------------------------------------

  /** The quest_validations rows a new quest brings. */
  function ValidationPairs(quest: QuestId, validations: seq<QuestValidation>): (pairs: set<(QuestId, ValidationId)>)
    ensures forall p :: p in pairs <==> p.0 == quest && exists v :: v in validations && v.validationId == p.1
  {
    set v | v in validations :: (quest, v.validationId)
  }

  /** The users_social_quests rows a new quest brings: one uncompleted,
      unstarted row per user. */
  function QuestRowsFor(users: set<UserId>, quest: QuestId): (rows: map<(UserId, QuestId), UserQuestRow>)
    ensures forall k :: k in rows <==> k.0 in users && k.1 == quest
    ensures forall k :: k in rows ==> rows[k] == UserQuestRow(false, None, None)
  {
    map u | u in users :: (u, quest) := UserQuestRow(false, None, None)
  }

  /** Some listed validation names no validation kind. */
  predicate UnknownKind(db: Db, validations: seq<QuestValidation>)
  {
    exists v :: v in validations && v.validationId !in db.validationKinds
  }

  /** Some user already has a row for the quest. */
  predicate RowsClash(db: Db, quest: QuestId)
  {
    exists u :: u in db.users && (u, quest) in db.usersSocialQuests
  }

  /** The whole transaction: the quest stamped with `now`, its validation
      pairs, and a row per existing user; or nothing. */
  function CreateQuest(db: Db, quest: SocialQuest, now: Time): (r: Result<Db, Error>)
    ensures r.Err? <==> quest.questId in db.socialQuests || UnknownKind(db, quest.validations) || RowsClash(db, quest.questId)
    ensures r.Ok? ==>
      && r.value.socialQuests.Keys == db.socialQuests.Keys + {quest.questId}
      && r.value.socialQuests[quest.questId] ==
         SocialQuestRow(quest.image, quest.title, quest.description, quest.pointReward, now)
      && (forall q :: q in db.socialQuests ==> r.value.socialQuests[q] == db.socialQuests[q])
    ensures r.Ok? ==> forall p :: p in r.value.questValidations <==>
      p in db.questValidations || (p.0 == quest.questId && exists v :: v in quest.validations && v.validationId == p.1)
    ensures r.Ok? ==> forall k :: k in r.value.usersSocialQuests <==>
      k in db.usersSocialQuests || (k.0 in db.users && k.1 == quest.questId)
    ensures r.Ok? ==> forall u :: u in db.users ==>
      r.value.usersSocialQuests[(u, quest.questId)] == UserQuestRow(false, None, None)
    ensures r.Ok? ==> forall k :: k in db.usersSocialQuests ==> r.value.usersSocialQuests[k] == db.usersSocialQuests[k]
    ensures r.Ok? ==> r.value == db.(socialQuests := r.value.socialQuests,
                                     questValidations := r.value.questValidations,
                                     usersSocialQuests := r.value.usersSocialQuests)
  {
    if quest.questId in db.socialQuests then Err(Wrap("failed to insert social quest", DuplicateKey))
    else if UnknownKind(db, quest.validations) then Err(Wrap("failed to insert quest validations", ForeignKeyViolation))
    else if RowsClash(db, quest.questId) then Err(Wrap("failed to insert user_social_quests entries", DuplicateKey))
    else
      Ok(db.(socialQuests := db.socialQuests[quest.questId :=
                SocialQuestRow(quest.image, quest.title, quest.description, quest.pointReward, now)],
             questValidations := db.questValidations + ValidationPairs(quest.questId, quest.validations),
             usersSocialQuests := db.usersSocialQuests + QuestRowsFor(db.users.Keys, quest.questId)))
  }

  /** The quest_validations insert: one row per listed validation, refused
      as a whole if one names no kind. */
  method InsertValidations(db: Db, quest: QuestId, validations: seq<QuestValidation>)
    returns (pairs: Option<set<(QuestId, ValidationId)>>)
    ensures pairs.None? <==> UnknownKind(db, validations)
    ensures pairs.Some? ==> pairs.value == db.questValidations + ValidationPairs(quest, validations)
  {
    var inserted := db.questValidations;
    for j := 0 to |validations|
      invariant forall k :: 0 <= k < j ==> validations[k].validationId in db.validationKinds
      invariant inserted == db.questValidations + ValidationPairs(quest, validations[..j])
    {
      var v := validations[j];
      if v.validationId !in db.validationKinds {
        return None;
      }
      assert validations[..j + 1] == validations[..j] + [v];
      inserted := inserted + {(quest, v.validationId)};
    }
    assert validations[..|validations|] == validations;
    return Some(inserted);
  }

  /** One more user, one more row. */
  lemma QuestRowsForGrows(users: set<UserId>, u: UserId, quest: QuestId)
    ensures QuestRowsFor(users + {u}, quest) == QuestRowsFor(users, quest)[(u, quest) := UserQuestRow(false, None, None)]
  {
    var grown := QuestRowsFor(users + {u}, quest);
    var step := QuestRowsFor(users, quest)[(u, quest) := UserQuestRow(false, None, None)];
    assert grown.Keys == step.Keys;
  }

  /** The users_social_quests insert: a row per user, refused as a whole if
      one is already there. */
  method InsertQuestRows(db: Db, quest: QuestId) returns (rows: Option<map<(UserId, QuestId), UserQuestRow>>)
    ensures rows.None? <==> RowsClash(db, quest)
    ensures rows.Some? ==> rows.value == db.usersSocialQuests + QuestRowsFor(db.users.Keys, quest)
  {
    var inserted := db.usersSocialQuests;
    var pending := db.users.Keys;
    while exists u :: u in pending
      invariant pending <= db.users.Keys
      invariant forall u :: u in db.users.Keys - pending ==> (u, quest) !in db.usersSocialQuests
      invariant inserted == db.usersSocialQuests + QuestRowsFor(db.users.Keys - pending, quest)
      decreases pending
    {
      var u :| u in pending;
      if (u, quest) in db.usersSocialQuests {
        return None;
      }
      assert db.users.Keys - (pending - {u}) == (db.users.Keys - pending) + {u};
      QuestRowsForGrows(db.users.Keys - pending, u, quest);
      inserted := inserted[(u, quest) := UserQuestRow(false, None, None)];
      pending := pending - {u};
    }
    assert db.users.Keys - pending == db.users.Keys;
    return Some(inserted);
  }

  method CreateSocialQuest(r: Repository, quest: SocialQuest, now: Time) returns (err: Option<Error>)
    modifies r
    ensures var c := CreateQuest(old(r.db), quest, now);
      && (c.Ok? ==> err.None? && r.db == c.value)
      && (c.Err? ==> err == Some(c.error) && r.db == old(r.db))
  {
    var db := r.db;
    if quest.questId in db.socialQuests {
      return Some(Wrap("failed to insert social quest", DuplicateKey));
    }
    var pairs := InsertValidations(db, quest.questId, quest.validations);
    if pairs.None? {
      return Some(Wrap("failed to insert quest validations", ForeignKeyViolation));
    }
    var rows := InsertQuestRows(db, quest.questId);
    if rows.None? {
      return Some(Wrap("failed to insert user_social_quests entries", DuplicateKey));
    }
    r.db := db.(socialQuests := db.socialQuests[quest.questId :=
                  SocialQuestRow(quest.image, quest.title, quest.description, quest.pointReward, now)],
                questValidations := pairs.value,
                usersSocialQuests := rows.value);
    return None;
  }

  /** In a consistent database, a quest with a fresh id whose validations
      all name existing kinds is created, and the database stays consistent:
      in particular every user now has a row for it. */
  lemma CreateQuestKeepsValid(db: Db, quest: SocialQuest, now: Time)
    requires Valid(db)
    requires quest.questId !in db.socialQuests
    requires forall v :: v in quest.validations ==> v.validationId in db.validationKinds
    ensures CreateQuest(db, quest, now).Ok?
    ensures Valid(CreateQuest(db, quest, now).value)
  {
    assert !RowsClash(db, quest.questId);
    var after := CreateQuest(db, quest, now).value;
    forall u, q | u in after.users && q in after.socialQuests
      ensures (u, q) in after.usersSocialQuests
    {
      if q != quest.questId {
        assert (u, q) in db.usersSocialQuests;
      }
    }
  }

  // ---------------------------------------------------------------------
  // Reads: GetQuestsData, GetQuestDataByID, GetUserValidationsStatus
  // ---------------------------------------------------------------------

  /** One scanned row of the quest query: the quest, the two aggregated
      arrays and the user's user-quest columns. */
  datatype QuestRecord = QuestRecord(
    questId: QuestId,
    image: string,
    title: string,
    description: string,
    pointReward: int,
    createdAt: Time,
    validationIds: seq<ValidationId>,
    validationNames: seq<string>,
    completed: bool,
    startedAt: Option<Time>,
    finishedAt: Option<Time>)

  /** The validation ids attached to a quest. */
  function ValidationIdsOf(db: Db, quest: QuestId): (ids: set<ValidationId>)
    ensures forall v :: v in ids <==> (quest, v) in db.questValidations
  {
    set p | p in db.questValidations && p.0 == quest :: p.1
  }

  /** Every validation of the quest names an existing kind, so that the two
      aggregated arrays have the same length. */
  predicate NamesResolve(db: Db, quest: QuestId)
  {
    forall v :: v in ValidationIdsOf(db, quest) ==> v in db.validationKinds
  }

  /** array_agg(validation_name) FILTER (WHERE validation_name IS NOT NULL):
      the names of the ids that join a kind, in the ids' order. */
  function KindNames(kinds: map<ValidationId, string>, ids: seq<ValidationId>): (names: seq<string>)
    ensures |names| <= |ids|
    ensures (forall j :: 0 <= j < |ids| ==> ids[j] in kinds) ==>
      |names| == |ids| && forall j :: 0 <= j < |ids| ==> names[j] == kinds[ids[j]]
  {
    if ids == [] then []
    else if ids[0] in kinds then [kinds[ids[0]]] + KindNames(kinds, ids[1..])
    else KindNames(kinds, ids[1..])
  }

  /** The row the query yields for a quest the user has a row for. The
      query leaves the order inside array_agg open; the model lists the
      validations by ascending id. */
  function RecordOf(db: Db, user: UserId, quest: QuestId): (rec: QuestRecord)
    requires quest in db.socialQuests && (user, quest) in db.usersSocialQuests
    ensures rec.questId == quest
    ensures NamesResolve(db, quest) ==> |rec.validationIds| == |rec.validationNames|
  {
    var row := db.socialQuests[quest];
    var uq := db.usersSocialQuests[(user, quest)];
    var ids := Ascending(ValidationIdsOf(db, quest));
    QuestRecord(quest, row.image, row.title, row.description, row.pointReward, row.createdAt,
                ids, KindNames(db.validationKinds, ids), uq.completed, uq.startedAt, uq.finishedAt)
  }

  /** The quest ids in ascending order (ORDER BY sq.quest_id). */
  function QuestOrder(db: Db): (ids: seq<QuestId>)
    ensures forall q :: q in db.socialQuests <==> q in ids
    ensures forall i, j :: 0 <= i < j < |ids| ==> ids[i] < ids[j]
  {
    Ascending(db.socialQuests.Keys)
  }

  /** Some quest has no users_social_quests row for the user, so its
      `completed` column is NULL. */
  predicate MissingRow(db: Db, user: UserId)
  {
    exists q :: q in db.socialQuests && (user, q) !in db.usersSocialQuests
  }

  /** The rows of the GetQuestsData query, or the scan error a NULL
      `completed` causes. */
  function QuestsQuery(db: Db, user: UserId): (r: Result<seq<QuestRecord>, Error>)
    ensures r.Err? <==> MissingRow(db, user)
    ensures r.Ok? ==>
      && |r.value| == |QuestOrder(db)|
      && forall i :: 0 <= i < |r.value| ==> r.value[i] == RecordOf(db, user, QuestOrder(db)[i])
  {
    if MissingRow(db, user) then Err(ScanNull)
    else
      var ids := QuestOrder(db);
      Ok(seq(|ids|, i requires 0 <= i < |ids| => RecordOf(db, user, ids[i])))
  }

  /** The row of the GetQuestDataByID query, or why there is none. */
  function QuestQuery(db: Db, user: UserId, quest: QuestId): (r: Result<QuestRecord, Error>)
    ensures quest !in db.socialQuests ==> r == Err(NoRows)
    ensures quest in db.socialQuests && (user, quest) !in db.usersSocialQuests ==> r == Err(ScanNull)
    ensures r.Ok? ==>
      && quest in db.socialQuests && (user, quest) in db.usersSocialQuests
      && r.value == RecordOf(db, user, quest)
  {
    if quest !in db.socialQuests then Err(NoRows)
    else if (user, quest) !in db.usersSocialQuests then Err(ScanNull)
    else Ok(RecordOf(db, user, quest))
  }

  /** The `for j` loop: validation j pairs ids[j] with names[j], and there are
      as many validations as ids (names beyond them are ignored; fewer names
      would make Go index out of range). */
  method ZipValidations(ids: seq<ValidationId>, names: seq<string>) returns (validations: seq<QuestValidation>)
    requires |ids| <= |names|
    ensures |validations| == |ids|
    ensures forall j :: 0 <= j < |ids| ==>
      validations[j].validationId == ids[j] && validations[j].validationName == names[j]
  {
    validations := seq(|ids|, _ => QuestValidation(0, ""));
    for j := 0 to |ids|
      invariant |validations| == |ids|
      invariant forall k :: 0 <= k < j ==> validations[k] == QuestValidation(ids[k], names[k])
    {
      validations := validations[j := QuestValidation(ids[j], names[j])];
    }
  }

  /** `quest` and `userQuest` carry the scanned row's columns, and the
      quest's validations pair the two arrays index-wise. */
  predicate AssembledFrom(rec: QuestRecord, user: UserId, quest: SocialQuest, userQuest: UserSocialQuest)
  {
    && quest == SocialQuest(rec.questId, rec.image, rec.title, rec.description, rec.pointReward,
                            rec.createdAt, quest.validations)
    && |quest.validations| == |rec.validationIds| <= |rec.validationNames|
    && (forall j :: 0 <= j < |rec.validationIds| ==>
          quest.validations[j] == QuestValidation(rec.validationIds[j], rec.validationNames[j]))
    && userQuest == UserSocialQuest(rec.questId, user, rec.completed, rec.startedAt, rec.finishedAt)
  }

  /** The quest and user-quest records built from one scanned row. */
  method Assemble(rec: QuestRecord, user: UserId) returns (quest: SocialQuest, userQuest: UserSocialQuest)
    requires |rec.validationIds| <= |rec.validationNames|
    ensures AssembledFrom(rec, user, quest, userQuest)
  {
    var validations := ZipValidations(rec.validationIds, rec.validationNames);
    quest := SocialQuest(rec.questId, rec.image, rec.title, rec.description, rec.pointReward,
                         rec.createdAt, validations);
    userQuest := UserSocialQuest(rec.questId, user, rec.completed, rec.startedAt, rec.finishedAt);
  }

  /** `validations` lists the quest's validations, each once, each with its
      kind's name, and no other. */
  predicate ListsValidations(db: Db, quest: QuestId, validations: seq<QuestValidation>)
  {
    && (forall i, j :: 0 <= i < j < |validations| ==> validations[i].validationId != validations[j].validationId)
    && (forall j :: 0 <= j < |validations| ==>
          (quest, validations[j].validationId) in db.questValidations
          && validations[j].validationId in db.validationKinds
          && validations[j].validationName == db.validationKinds[validations[j].validationId])
    && (forall v :: v in ValidationIdsOf(db, quest) ==>
          exists j :: 0 <= j < |validations| && validations[j].validationId == v)
  }

  /** `sq` is the stored quest `quest` with its validations. */
  predicate Describes(db: Db, quest: QuestId, sq: SocialQuest)
  {
    && quest in db.socialQuests
    && var row := db.socialQuests[quest];
    && sq == SocialQuest(quest, row.image, row.title, row.description, row.pointReward, row.createdAt, sq.validations)
    && ListsValidations(db, quest, sq.validations)
  }

  /** The user's row for the quest, as the model record. */
  function UserQuestOf(db: Db, user: UserId, quest: QuestId): (uq: UserSocialQuest)
    requires (user, quest) in db.usersSocialQuests
    ensures uq.questId == quest && uq.userId == user
  {
    var row := db.usersSocialQuests[(user, quest)];
    UserSocialQuest(quest, user, row.completed, row.startedAt, row.finishedAt)
  }

  /** Validations paired index-wise with the quest's ascending ids and their
      kinds' names list the quest's validations. */
  lemma ZippedListsValidations(db: Db, quest: QuestId, validations: seq<QuestValidation>)
    requires var ids := Ascending(ValidationIdsOf(db, quest));
      && (forall j :: 0 <= j < |ids| ==> ids[j] in db.validationKinds)
      && |validations| == |ids|
      && (forall j :: 0 <= j < |ids| ==>
            validations[j].validationId == ids[j] && validations[j].validationName == db.validationKinds[ids[j]])
    ensures ListsValidations(db, quest, validations)
  {
    var ids := Ascending(ValidationIdsOf(db, quest));
    forall v | v in ValidationIdsOf(db, quest)
      ensures exists j :: 0 <= j < |validations| && validations[j].validationId == v
    {
      var j :| 0 <= j < |ids| && ids[j] == v;
      assert validations[j].validationId == v;
    }
  }

  /** A quest assembled from its row describes the stored quest, and the
      user-quest assembled beside it is the user's row. */
  lemma AssembledDescribes(db: Db, user: UserId, quest: QuestId, sq: SocialQuest, uq: UserSocialQuest)
    requires quest in db.socialQuests && (user, quest) in db.usersSocialQuests
    requires NamesResolve(db, quest)
    requires AssembledFrom(RecordOf(db, user, quest), user, sq, uq)
    ensures Describes(db, quest, sq)
    ensures uq == UserQuestOf(db, user, quest)
  {
    RecordPairs(db, user, quest, sq, uq);
    ZippedListsValidations(db, quest, sq.validations);
  }

  /** The validations assembled from a quest's row pair each of its
      ascending validation ids with that kind's name. */
  lemma RecordPairs(db: Db, user: UserId, quest: QuestId, sq: SocialQuest, uq: UserSocialQuest)
    requires quest in db.socialQuests && (user, quest) in db.usersSocialQuests
    requires NamesResolve(db, quest)
    requires AssembledFrom(RecordOf(db, user, quest), user, sq, uq)
    ensures var ids := Ascending(ValidationIdsOf(db, quest));
      && (forall j :: 0 <= j < |ids| ==> ids[j] in db.validationKinds)
      && |sq.validations| == |ids|
      && (forall j :: 0 <= j < |ids| ==>
            sq.validations[j].validationId == ids[j] && sq.validations[j].validationName == db.validationKinds[ids[j]])
  {
    var rec := RecordOf(db, user, quest);
    var ids := Ascending(ValidationIdsOf(db, quest));
    assert rec.validationIds == ids;
    assert forall j :: 0 <= j < |ids| ==> ids[j] in db.validationKinds;
    var names := KindNames(db.validationKinds, ids);
    assert rec.validationNames == names;
    forall j | 0 <= j < |ids|
      ensures sq.validations[j].validationId == ids[j]
      ensures sq.validations[j].validationName == db.validationKinds[ids[j]]
    {
      assert sq.validations[j] == QuestValidation(ids[j], names[j]);
    }
  }

  /** `quests` and `userQuests` are parallel lists: every quest once, in
      ascending id order, each beside the user's row for it. */
  predicate ListsQuests(db: Db, user: UserId, quests: seq<SocialQuest>, userQuests: seq<UserSocialQuest>)
  {
    && |quests| == |userQuests|
    && (forall i :: 0 <= i < |quests| ==>
          && Describes(db, quests[i].questId, quests[i])
          && (user, quests[i].questId) in db.usersSocialQuests
          && userQuests[i] == UserQuestOf(db, user, quests[i].questId))
    && (forall i, j :: 0 <= i < j < |quests| ==> quests[i].questId < quests[j].questId)
    && (forall q :: q in db.socialQuests ==> exists i :: 0 <= i < |quests| && quests[i].questId == q)
  }

  /** Each quest's validations must name existing kinds (otherwise Go
      indexes past the end of the names array). */
  method GetQuestsData(r: Repository, user: UserId)
    returns (res: Result<(seq<SocialQuest>, seq<UserSocialQuest>), Error>)
    requires forall q :: q in r.db.socialQuests ==> NamesResolve(r.db, q)
    ensures res.Err? <==> MissingRow(r.db, user)
    ensures res.Err? ==> res.error == ScanNull
    ensures res.Ok? ==> ListsQuests(r.db, user, res.value.0, res.value.1)
  {
    var db := r.db;
    var rows := QuestsQuery(db, user);
    if rows.Err? {
      return Err(rows.error);
    }
    var records := rows.value;
    forall k | 0 <= k < |records|
      ensures |records[k].validationIds| <= |records[k].validationNames|
    {
      assert QuestOrder(db)[k] in db.socialQuests;
    }
    var quests, userQuests := AssembleAll(records, user);
    AssembledListsQuests(db, user, records, quests, userQuests);
    return Ok((quests, userQuests));
  }

  /** The `for i` loop over the scanned rows. */
  method AssembleAll(records: seq<QuestRecord>, user: UserId)
    returns (quests: seq<SocialQuest>, userQuests: seq<UserSocialQuest>)
    requires forall k :: 0 <= k < |records| ==> |records[k].validationIds| <= |records[k].validationNames|
    ensures |quests| == |records| && |userQuests| == |records|
    ensures forall k :: 0 <= k < |records| ==> AssembledFrom(records[k], user, quests[k], userQuests[k])
  {
    quests := [];
    userQuests := [];
    for i := 0 to |records|
      invariant |quests| == i && |userQuests| == i
      invariant forall k :: 0 <= k < i ==> AssembledFrom(records[k], user, quests[k], userQuests[k])
    {
      var q, uq := Assemble(records[i], user);
      quests := quests + [q];
      userQuests := userQuests + [uq];
    }
  }

  /** Assembling every row of the quest query lists the quests. */
  lemma AssembledListsQuests(db: Db, user: UserId, records: seq<QuestRecord>,
                             quests: seq<SocialQuest>, userQuests: seq<UserSocialQuest>)
    requires forall q :: q in db.socialQuests ==> NamesResolve(db, q)
    requires QuestsQuery(db, user) == Ok(records)
    requires |quests| == |records| && |userQuests| == |records|
    requires forall k :: 0 <= k < |records| ==> AssembledFrom(records[k], user, quests[k], userQuests[k])
    ensures ListsQuests(db, user, quests, userQuests)
  {
    var order := QuestOrder(db);
    forall k | 0 <= k < |quests|
      ensures quests[k].questId == order[k]
      ensures Describes(db, order[k], quests[k])
      ensures (user, order[k]) in db.usersSocialQuests
      ensures userQuests[k] == UserQuestOf(db, user, order[k])
    {
      assert !MissingRow(db, user);
      assert order[k] in db.socialQuests;
      AssembledDescribes(db, user, order[k], quests[k], userQuests[k]);
    }
    forall q | q in db.socialQuests
      ensures exists i :: 0 <= i < |quests| && quests[i].questId == q
    {
      var i :| 0 <= i < |order| && order[i] == q;
      assert quests[i].questId == q;
    }
  }

  /** The quest's validations must name existing kinds (otherwise Go
      indexes past the end of the names array). */
  method GetQuestDataByID(r: Repository, user: UserId, quest: QuestId)
    returns (res: Result<(SocialQuest, UserSocialQuest), Error>)
    requires NamesResolve(r.db, quest)
    ensures quest !in r.db.socialQuests ==> res == Err(RepoNotFound)
    ensures quest in r.db.socialQuests && (user, quest) !in r.db.usersSocialQuests ==>
      res == Err(Wrap("failed to get quest", ScanNull))
    ensures quest in r.db.socialQuests && (user, quest) in r.db.usersSocialQuests ==>
      res.Ok? && Describes(r.db, quest, res.value.0) && res.value.1 == UserQuestOf(r.db, user, quest)
  {
    var db := r.db;
    var row := QuestQuery(db, user, quest);
    if row.Err? {
      if row.error == NoRows {
        return Err(RepoNotFound);
      }
      return Err(Wrap("failed to get quest", row.error));
    }
    var q, uq := Assemble(row.value, user);
    AssembledDescribes(db, user, quest, q, uq);
    return Ok((q, uq));
  }

  /** The (id, name) pairs of the validations the user has passed, joined
      with their kinds. */
  function UserValidations(db: Db, user: UserId): (done: set<QuestValidation>)
    ensures forall v :: v in done <==>
      (user, v.validationId) in db.userValidations
      && v.validationId in db.validationKinds
      && v.validationName == db.validationKinds[v.validationId]
  {
    var result := set p | p in db.userValidations && p.0 == user && p.1 in db.validationKinds
                       :: QuestValidation(p.1, db.validationKinds[p.1]);
    forall v: QuestValidation | (user, v.validationId) in db.userValidations && v.validationId in db.validationKinds
      && v.validationName == db.validationKinds[v.validationId]
      ensures v in result
    {
      var p := (user, v.validationId);
      assert QuestValidation(p.1, db.validationKinds[p.1]) == v;
    }
    result
  }
}
