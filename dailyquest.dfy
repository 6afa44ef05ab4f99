/** The daily login streak of internal/service/dailyquest.go over the
    daily_quests row of internal/repository/dailyquest.go. */
module DailyQuestService {
  import opened Common
  import opened Tables
  import opened UserRepository

  const BaseReward: int := 500
  const DailyBonuses: seq<int> := [0, 140, 280, 400, 500, 600, 700]
  const Day: int := 24 * Hour

  datatype DayReward = DayReward(day: int, reward: int)

  /** What GetStatus reports. */
  datatype DailyQuest = DailyQuest(
    userTelegramId: UserId,
    lastClaimedAt: Option<Time>,
    nextClaimAvailable: Option<Time>,
    isAvailable: bool,
    hasNeverBeenClaimed: bool,
    consecutiveDaysClaimed: int,
    dailyRewards: seq<DayReward>)

  /** The reward for the given day of a streak. */
  function RewardForDay(day: int): int
    requires 1 <= day <= 7
  {
    BaseReward + DailyBonuses[day - 1]
  }

  /** The seven-entry reward table GetStatus fills in. */
  method BuildDailyRewards() returns (rewards: seq<DayReward>)
    ensures |rewards| == 7
    ensures forall i :: 0 <= i < 7 ==> rewards[i] == DayReward(i + 1, BaseReward + DailyBonuses[i])
  {
    rewards := [];
    for i := 0 to 7
      invariant |rewards| == i
      invariant forall j :: 0 <= j < i ==> rewards[j] == DayReward(j + 1, BaseReward + DailyBonuses[j])
    {
      rewards := rewards + [DayReward(i + 1, BaseReward + DailyBonuses[i])];
    }
  }

  /** The same table as a value. */
  function DailyRewards(): seq<DayReward>
  {
    seq(7, i requires 0 <= i < 7 => DayReward(i + 1, RewardForDay(i + 1)))
  }

  /** The rewards grow day by day, from 500 on day 1 to 1200 on day 7. */
  lemma RewardsGrow()
    ensures forall d, e :: 1 <= d < e <= 7 ==> RewardForDay(d) < RewardForDay(e)
    ensures RewardForDay(1) == 500 && RewardForDay(7) == 1200
  {
  }

  /** The status GetStatus computes from the stored row. */
  function StatusOf(id: UserId, row: DailyRow, now: Time): (s: DailyQuest)
    // never claimed: available now, no next time, streak 0
    ensures row.lastClaimedAt.None? ==>
      s.hasNeverBeenClaimed && s.isAvailable && s.nextClaimAvailable.None? && s.consecutiveDaysClaimed == 0
    // otherwise the next claim opens a day after the last, and is available
    // strictly after that
    ensures row.lastClaimedAt.Some? ==>
      && !s.hasNeverBeenClaimed
      && s.nextClaimAvailable == Some(row.lastClaimedAt.value + Day)
      && (s.isAvailable <==> now > row.lastClaimedAt.value + Day)
    // a streak missed for more than two days is forgotten; a forgotten streak
    // is always claimable
    ensures row.lastClaimedAt.Some? ==>
      s.consecutiveDaysClaimed == if now > row.lastClaimedAt.value + 2 * Day then 0 else row.consecutiveDaysClaimed
    ensures s.consecutiveDaysClaimed != row.consecutiveDaysClaimed ==> s.isAvailable
    ensures s.lastClaimedAt == row.lastClaimedAt && s.userTelegramId == id
    ensures s.dailyRewards == DailyRewards()
  {
    match row.lastClaimedAt
    case None => DailyQuest(id, None, None, true, true, 0, DailyRewards())
    case Some(last) =>
      var next := last + Day;
      var streak := if now > next + Day then 0 else row.consecutiveDaysClaimed;
      DailyQuest(id, row.lastClaimedAt, Some(next), now > next, false, streak, DailyRewards())
  }

  /** The row GetStatus leaves: a forgotten streak is written back as 0 with
      the same last claim time. */
  function StatusRow(row: DailyRow, now: Time): DailyRow
  {
    if row.lastClaimedAt.Some? && now > row.lastClaimedAt.value + 2 * Day then row.(consecutiveDaysClaimed := 0)
    else row
  }

  /** The streak after a claim, wrapping from 7 back to 1. */
  function NextStreak(streak: int): (n: int)
    requires streak >= 0
    ensures 1 <= n <= 7
    ensures streak < 7 ==> n == streak + 1
    ensures streak >= 7 ==> n == 1
  {
    if streak + 1 > 7 then 1 else streak + 1
  }

  /** The row a claim writes and the reward it credits, or
      ErrClaimNotAvailable. */
  function ClaimOf(row: DailyRow, now: Time): (r: Result<(DailyRow, int), Error>)
    requires row.consecutiveDaysClaimed >= 0
    ensures r.Err? <==> !StatusOf(0, row, now).isAvailable
    ensures r.Err? ==> r.error == SvcClaimNotAvailable
    ensures r.Ok? ==> r.value.0.lastClaimedAt == Some(now)
    ensures r.Ok? ==> 1 <= r.value.0.consecutiveDaysClaimed <= 7
    ensures r.Ok? ==> r.value.1 == RewardForDay(r.value.0.consecutiveDaysClaimed)
    // the streak continues from the reported one (0 once forgotten)
    ensures r.Ok? ==> r.value.0.consecutiveDaysClaimed == NextStreak(StatusOf(0, row, now).consecutiveDaysClaimed)
  {
    var status := StatusOf(0, row, now);
    if !status.isAvailable then Err(SvcClaimNotAvailable)
    else
      var streak := NextStreak(status.consecutiveDaysClaimed);
      Ok((DailyRow(Some(now), streak), RewardForDay(streak)))
  }

  /** Right after a claim the next one is refused for a day, and allowed
      once the day has passed. */
  lemma ClaimClosesForADay(row: DailyRow, now: Time, later: Time)
    requires row.consecutiveDaysClaimed >= 0
    requires ClaimOf(row, now).Ok?
    ensures var after := ClaimOf(row, now).value.0;
      && (later <= now + Day ==> ClaimOf(after, later) == Err(SvcClaimNotAvailable))
      && (later > now + Day ==> ClaimOf(after, later).Ok?)
  {
  }

  /** Claiming every day between one and two days apart raises the streak by
      one each time; a gap of more than two days restarts it at 1. */
  lemma StreakContinuesOrRestarts(row: DailyRow, now: Time, later: Time)
    requires row.consecutiveDaysClaimed >= 0
    requires ClaimOf(row, now).Ok?
    ensures var after := ClaimOf(row, now).value.0;
      var streak := after.consecutiveDaysClaimed;
      && (now + Day < later <= now + 2 * Day ==>
            ClaimOf(after, later).Ok? && ClaimOf(after, later).value.0.consecutiveDaysClaimed == NextStreak(streak))
      && (later > now + 2 * Day ==>
            ClaimOf(after, later).Ok? && ClaimOf(after, later).value.0.consecutiveDaysClaimed == 1)
  {
  }

  /** The cases the package's tests pin down. */
  lemma TestedCases(t: Time)
    // last claim 12h ago: not available, streak kept
    ensures var s := StatusOf(1, DailyRow(Some(t - 12 * Hour), 2), t);
      !s.isAvailable && s.consecutiveDaysClaimed == 2
    // 25h ago: available, streak kept
    ensures var s := StatusOf(1, DailyRow(Some(t - 25 * Hour), 3), t);
      s.isAvailable && s.consecutiveDaysClaimed == 3
    // 49h ago: streak forgotten and written back as 0
    ensures StatusOf(1, DailyRow(Some(t - 49 * Hour), 4), t).consecutiveDaysClaimed == 0
    ensures StatusRow(DailyRow(Some(t - 49 * Hour), 4), t) == DailyRow(Some(t - 49 * Hour), 0)
    // first claim: day 1, 500 points
    ensures ClaimOf(DailyRow(None, 0), t) == Ok((DailyRow(Some(t), 1), 500))
    // day 3 after day 2, 780 points; day 7 wraps to day 1
    ensures ClaimOf(DailyRow(Some(t - 25 * Hour), 2), t) == Ok((DailyRow(Some(t), 3), 780))
    ensures ClaimOf(DailyRow(Some(t - 25 * Hour), 7), t) == Ok((DailyRow(Some(t), 1), 500))
    // 12h after a claim: refused
    ensures ClaimOf(DailyRow(Some(t - 12 * Hour), 1), t) == Err(SvcClaimNotAvailable)
  {
  }

  /** GetStatus: ErrUserNotFound when the user or its daily-quest row is
      missing (the user is looked up first); otherwise the status, with a
      forgotten streak written back. */
  method GetStatus(r: Repository, id: UserId, now: Time) returns (res: Result<DailyQuest, Error>)
    modifies r
    ensures id !in old(r.db.users) || id !in old(r.db.dailyQuests) ==> res == Err(SvcUserNotFound) && r.db == old(r.db)
    ensures id in old(r.db.users) && id in old(r.db.dailyQuests) ==>
      && res == Ok(StatusOf(id, old(r.db.dailyQuests[id]), now))
      && r.db == old(r.db).(dailyQuests := old(r.db.dailyQuests)[id := StatusRow(old(r.db.dailyQuests[id]), now)])
  {
    var db := r.db;
    if id !in db.users || id !in db.dailyQuests {
      return Err(SvcUserNotFound);
    }
    var quest := db.dailyQuests[id];
    var hasNeverBeenClaimed := quest.lastClaimedAt.None?;
    var rewards := BuildDailyRewards();
    assert rewards == DailyRewards();
    if hasNeverBeenClaimed {
      return Ok(DailyQuest(id, None, None, true, true, 0, rewards));
    }
    var nextClaimAvailable := quest.lastClaimedAt.value + Day;
    var status := DailyQuest(id, quest.lastClaimedAt, Some(nextClaimAvailable), now > nextClaimAvailable,
                             false, quest.consecutiveDaysClaimed, rewards);
    if now > nextClaimAvailable + Day {
      status := status.(consecutiveDaysClaimed := 0);
      r.db := db.(dailyQuests := db.dailyQuests[id := DailyRow(quest.lastClaimedAt, 0)]);
    }
    res := Ok(status);
  }

  /** Claim: the status (and its reset), then the new streak row, then the
      points; nothing is credited when the claim is refused. */
  method Claim(r: Repository, id: UserId, now: Time) returns (err: Option<Error>)
    modifies r
    requires forall u :: u in r.db.dailyQuests ==> r.db.dailyQuests[u].consecutiveDaysClaimed >= 0
    ensures forall u :: u in r.db.dailyQuests ==> r.db.dailyQuests[u].consecutiveDaysClaimed >= 0
    ensures id !in old(r.db.users) || id !in old(r.db.dailyQuests) ==> err == Some(SvcUserNotFound) && r.db == old(r.db)
    ensures id in old(r.db.users) && id in old(r.db.dailyQuests) ==>
      var row := old(r.db.dailyQuests[id]);
      var claim := ClaimOf(row, now);
      // a refused claim writes nothing: no streak can be forgotten yet
      && (claim.Err? ==> err == Some(SvcClaimNotAvailable) && r.db == old(r.db))
      // otherwise the new streak is saved and the reward credited
      && (claim.Ok? ==>
            && err.None?
            && r.db == old(r.db).(dailyQuests := old(r.db.dailyQuests)[id := claim.value.0],
                                 users := Credit(old(r.db.users), id, claim.value.1).value))
  {
    ghost var before := r.db;
    var status := GetStatus(r, id, now);
    if status.Err? {
      return Some(status.error);
    }
    ghost var row := before.dailyQuests[id];
    assert status.value.isAvailable == StatusOf(0, row, now).isAvailable;
    assert status.value.consecutiveDaysClaimed == StatusOf(0, row, now).consecutiveDaysClaimed;
    if !status.value.isAvailable {
      RefusalKeepsRow(row, now);
      return Some(SvcClaimNotAvailable);
    }
    var newConsecutiveDays := status.value.consecutiveDaysClaimed + 1;
    if newConsecutiveDays > 7 {
      newConsecutiveDays := 1;
    }
    var reward := BaseReward + DailyBonuses[newConsecutiveDays - 1];
    assert ClaimOf(row, now) == Ok((DailyRow(Some(now), newConsecutiveDays), reward));
    // UpdateDailyQuestStatus: the row exists, GetStatus has just read it
    r.db := r.db.(dailyQuests := r.db.dailyQuests[id := DailyRow(Some(now), newConsecutiveDays)]);
    err := UpdateUserPoints(r, id, reward);
  }

  /** While a claim is refused the streak cannot have been forgotten, so the
      status read leaves the row as it was. */
  lemma RefusalKeepsRow(row: DailyRow, now: Time)
    requires row.consecutiveDaysClaimed >= 0
    requires ClaimOf(row, now).Err?
    ensures StatusRow(row, now) == row
  {
  }

  /** Claims keep the stored streak within the seven-day table. */
  lemma ClaimKeepsStreakInRange(row: DailyRow, now: Time)
    requires 0 <= row.consecutiveDaysClaimed <= 7
    ensures 0 <= StatusRow(row, now).consecutiveDaysClaimed <= 7
    ensures ClaimOf(row, now).Ok? ==> 0 <= ClaimOf(row, now).value.0.consecutiveDaysClaimed <= 7
  {
  }
}
