/** The farm harvest cycle of internal/repository/farm.go: one farm_game row
    per player, read, branched on and written back by StartHarvest, Status and
    ClaimPoints. The model keeps the code's behaviour as written, including
    its quirks (see the lemmas at the end). */
module FarmRepository {
  import opened Common
  import opened Tables

  const CooldownDuration: int := 8 * Hour
  const DefaultReward: int := 800

  /** What Status reports. */
  datatype FarmStatus = FarmStatus(
    isInProgress: bool,
    startedAt: Option<Time>,
    pointReward: int,
    isPreviousClaimed: bool)

  /** The errors the three operations build with fmt.Errorf. */
  datatype FarmError =
    | AlreadyInProgress          // "cannot start harvest: farming already in progress"
    | PreviousNotClaimed         // "cannot start harvest: previous reward must be claimed first"
    | NoSession                  // "no farming session found"
    | NotYetComplete(remaining: int)   // "farming session not yet complete, %v remaining"
    | AlreadyClaimed             // "reward already claimed"

  /** A running cycle always has a start time. */
  predicate Consistent(row: FarmRow)
  {
    row.isInProgress ==> row.startedAt.Some?
  }

  function Lookup(rows: map<UserId, FarmRow>, player: UserId): Option<FarmRow>
  {
    if player in rows then Some(rows[player]) else None
  }

  /** The elapsed time ClaimPoints computes: a NULL started_at scans as Go's
      zero time, so the difference saturates. */
  function TimeSinceStart(now: Time, startedAt: Option<Time>): int
  {
    Sub(now, if startedAt.Some? then startedAt.value else ZeroTime)
  }

  lemma NullStartPassesCooldown(now: Time)
    requires now >= ZeroTime + CooldownDuration
    ensures TimeSinceStart(now, None) >= CooldownDuration
  {
  }

  // ---------------------------------------------------------------- StartHarvest

  /** The row StartHarvest leaves, or its error. */
  function StartHarvestRow(row: Option<FarmRow>, now: Time): (r: Result<FarmRow, FarmError>)
    // a first harvest inserts a fresh, running, unclaimed row
    ensures row.None? ==> r == Ok(FarmRow(true, Some(now), false))
    // "in progress" is checked before "previous reward not claimed"; the stored
    // flag decides, the cycle is never expired here
    ensures row.Some? && row.value.isInProgress ==> r == Err(AlreadyInProgress)
    ensures row.Some? && !row.value.isInProgress && !row.value.isPreviousClaimed ==> r == Err(PreviousNotClaimed)
    ensures r.Ok? <==> row.None? || (!row.value.isInProgress && row.value.isPreviousClaimed)
    // a restart sets only is_in_progress and started_at
    ensures r.Ok? ==> r.value.isInProgress && r.value.startedAt == Some(now) && Consistent(r.value)
    ensures r.Ok? && row.Some? ==> r.value.isPreviousClaimed == row.value.isPreviousClaimed
  {
    match row
    case None => Ok(FarmRow(true, Some(now), false))
    case Some(status) =>
      if status.isInProgress then Err(AlreadyInProgress)
      else if !status.isPreviousClaimed then Err(PreviousNotClaimed)
      // INSERT (player, true, now, true) ON CONFLICT (player) DO UPDATE SET
      // is_in_progress = EXCLUDED.is_in_progress, started_at = EXCLUDED.started_at
      else Ok(status.(isInProgress := true, startedAt := Some(now)))
  }

  method StartHarvest(r: Repository, player: UserId, now: Time) returns (err: Option<FarmError>)
    modifies r
    ensures var res := StartHarvestRow(Lookup(old(r.db.farmGame), player), now);
      && (res.Ok? ==> err.None? && r.db == old(r.db).(farmGame := old(r.db.farmGame)[player := res.value]))
      && (res.Err? ==> err == Some(res.error) && r.db == old(r.db))
  {
    var db := r.db;
    if player !in db.farmGame {
      r.db := db.(farmGame := db.farmGame[player := FarmRow(true, Some(now), false)]);
      return None;
    }
    var status := db.farmGame[player];
    if status.isInProgress {
      return Some(AlreadyInProgress);
    }
    if !status.isPreviousClaimed {
      return Some(PreviousNotClaimed);
    }
    var upserted := status.(isInProgress := true, startedAt := Some(now));
    r.db := db.(farmGame := db.farmGame[player := upserted]);
    err := None;
  }

  // ---------------------------------------------------------------- Status

  /** The expiry test of Status: a start time is stored and the cooldown has run out. */
  predicate Expired(row: FarmRow, now: Time)
  {
    row.startedAt.Some? && Sub(now, row.startedAt.value) >= CooldownDuration
  }

  /** The status Status reports and the row it leaves behind. */
  function StatusOf(row: Option<FarmRow>, now: Time): (r: (FarmStatus, Option<FarmRow>))
    // no row: a default view, and nothing is written
    ensures row.None? ==> r == (FarmStatus(false, None, DefaultReward, true), None)
    ensures r.0.pointReward == DefaultReward
    ensures row.Some? ==> r.1.Some?
    // an expired cycle is cleared in the view and in the row alike, keeping
    // is_previous_claimed; otherwise the row is left alone
    ensures row.Some? && Expired(row.value, now) ==>
      && r.1 == Some(row.value.(isInProgress := false, startedAt := None))
      && r.0 == FarmStatus(false, None, DefaultReward, row.value.isPreviousClaimed)
    ensures row.Some? && !Expired(row.value, now) ==>
      r.1 == row && r.0 == FarmStatus(row.value.isInProgress, row.value.startedAt, DefaultReward, row.value.isPreviousClaimed)
    ensures row.Some? && Consistent(row.value) ==> Consistent(r.1.value)
  {
    match row
    case None => (FarmStatus(false, None, DefaultReward, true), None)
    case Some(status) =>
      var stored := if Expired(status, now) then status.(isInProgress := false, startedAt := None) else status;
      (FarmStatus(stored.isInProgress, stored.startedAt, DefaultReward, stored.isPreviousClaimed), Some(stored))
  }

  method Status(r: Repository, player: UserId, now: Time) returns (status: FarmStatus)
    modifies r
    ensures var res := StatusOf(Lookup(old(r.db.farmGame), player), now);
      && status == res.0
      && r.db == (if res.1.Some? then old(r.db).(farmGame := old(r.db.farmGame)[player := res.1.value]) else old(r.db))
  {
    var db := r.db;
    if player !in db.farmGame {
      return FarmStatus(false, None, DefaultReward, true);
    }
    var row := db.farmGame[player];
    if row.startedAt.Some? && Sub(now, row.startedAt.value) >= CooldownDuration {
      row := row.(isInProgress := false, startedAt := None);
      r.db := db.(farmGame := db.farmGame[player := row]);
    }
    status := FarmStatus(row.isInProgress, row.startedAt, DefaultReward, row.isPreviousClaimed);
  }

  // ---------------------------------------------------------------- ClaimPoints

  /** The row ClaimPoints leaves, or its error. */
  function ClaimRow(row: Option<FarmRow>, now: Time): (r: Result<FarmRow, FarmError>)
    ensures row.None? ==> r == Err(NoSession)
    // a running clock is checked before the claimed flag; a NULL start passes
    ensures row.Some? && TimeSinceStart(now, row.value.startedAt) < CooldownDuration ==>
      r == Err(NotYetComplete(CooldownDuration - TimeSinceStart(now, row.value.startedAt)))
    ensures row.Some? && TimeSinceStart(now, row.value.startedAt) >= CooldownDuration && row.value.isPreviousClaimed ==>
      r == Err(AlreadyClaimed)
    ensures r.Ok? <==> row.Some? && TimeSinceStart(now, row.value.startedAt) >= CooldownDuration && !row.value.isPreviousClaimed
    // success closes the cycle and marks it claimed
    ensures r.Ok? ==> r.value == FarmRow(false, None, true)
    ensures r.Err? && r.error.NotYetComplete? ==> 0 < r.error.remaining
  {
    match row
    case None => Err(NoSession)
    case Some(status) =>
      var elapsed := TimeSinceStart(now, status.startedAt);
      if elapsed < CooldownDuration then Err(NotYetComplete(CooldownDuration - elapsed))
      else if status.isPreviousClaimed then Err(AlreadyClaimed)
      else Ok(FarmRow(false, None, true))
  }

  /** users.points + reward for the player, when the player has a users row
      (the UPDATE matches no row otherwise and is not an error). */
  function AddPoints(users: map<UserId, UserRow>, player: UserId, reward: int): (r: map<UserId, UserRow>)
    ensures r.Keys == users.Keys
    ensures player in users ==> r[player].points == users[player].points + reward
    ensures forall u :: u in users && u != player ==> r[u] == users[u]
  {
    if player in users then users[player := users[player].(points := users[player].points + reward)] else users
  }

  method ClaimPoints(r: Repository, player: UserId, now: Time) returns (points: int, err: Option<FarmError>)
    modifies r
    ensures var res := ClaimRow(Lookup(old(r.db.farmGame), player), now);
      && (res.Ok? ==>
            (&& points == DefaultReward && err.None?
             && r.db == old(r.db).(farmGame := old(r.db.farmGame)[player := res.value],
                                  users := AddPoints(old(r.db.users), player, DefaultReward))))
      && (res.Err? ==> points == 0 && err == Some(res.error) && r.db == old(r.db))
  {
    var db := r.db;
    if player !in db.farmGame {
      return 0, Some(NoSession);
    }
    var status := db.farmGame[player];
    var timeSinceStart := Sub(now, if status.startedAt.Some? then status.startedAt.value else ZeroTime);
    if timeSinceStart < CooldownDuration {
      return 0, Some(NotYetComplete(CooldownDuration - timeSinceStart));
    }
    if status.isPreviousClaimed {
      return 0, Some(AlreadyClaimed);
    }
    db := db.(farmGame := db.farmGame[player := FarmRow(false, None, true)]);
    if player in db.users {
      var u := db.users[player];
      db := db.(users := db.users[player := u.(points := u.points + DefaultReward)]);
    }
    r.db := db;
    points, err := DefaultReward, None;
  }

  // ---------------------------------------------------------------- traces

  /** One call against a single player's row, at a given instant. */
  datatype FarmCall = StartCall(at: Time) | StatusCall(at: Time) | ClaimCall(at: Time)

  /** The row after one call. */
  function Apply(row: Option<FarmRow>, call: FarmCall): Option<FarmRow>
  {
    match call
    case StartCall(at) =>
      var res := StartHarvestRow(row, at);
      if res.Ok? then Some(res.value) else row
    case StatusCall(at) => StatusOf(row, at).1
    case ClaimCall(at) =>
      var res := ClaimRow(row, at);
      if res.Ok? then Some(res.value) else row
  }

  /** The row after a sequence of calls, and how many claims paid out. */
  function Replay(row: Option<FarmRow>, calls: seq<FarmCall>): (Option<FarmRow>, nat)
    decreases |calls|
  {
    if calls == [] then (row, 0)
    else
      var paid := if calls[0].ClaimCall? && ClaimRow(row, calls[0].at).Ok? then 1 else 0;
      var rest := Replay(Apply(row, calls[0]), calls[1..]);
      (rest.0, rest.1 + paid)
  }

  /** Every call keeps a consistent row consistent. */
  lemma {:induction false} ReplayKeepsConsistent(row: Option<FarmRow>, calls: seq<FarmCall>)
    requires row.Some? ==> Consistent(row.value)
    ensures var r := Replay(row, calls).0; r.Some? ==> Consistent(r.value)
    decreases |calls|
  {
    if calls != [] {
      ReplayKeepsConsistent(Apply(row, calls[0]), calls[1..]);
    }
  }

  /** Once a stored row says the previous reward was claimed, it says so for
      ever and no later claim pays: a restart keeps the flag, Status keeps it
      and ClaimPoints refuses with "reward already claimed". */
  lemma {:induction false} ClaimedStaysClaimed(row: FarmRow, calls: seq<FarmCall>)
    requires row.isPreviousClaimed
    ensures Replay(Some(row), calls).0.Some?
    ensures Replay(Some(row), calls).0.value.isPreviousClaimed
    ensures Replay(Some(row), calls).1 == 0
    decreases |calls|
  {
    if calls != [] {
      var next := Apply(Some(row), calls[0]);
      assert next.Some? && next.value.isPreviousClaimed;
      ClaimedStaysClaimed(next.value, calls[1..]);
    }
  }

  /** The second of two back-to-back claims of one cycle always fails, with
      "reward already claimed" at any instant past the zero time plus the
      cooldown. */
  lemma SecondClaimFails(row: Option<FarmRow>, t1: Time, t2: Time)
    requires ClaimRow(row, t1).Ok?
    ensures ClaimRow(Some(ClaimRow(row, t1).value), t2).Err?
    ensures t2 >= ZeroTime + CooldownDuration ==>
      ClaimRow(Some(ClaimRow(row, t1).value), t2) == Err(AlreadyClaimed)
  {
  }

  /** A player who has never farmed is paid at most once, whatever they do:
      the first claim sets is_previous_claimed and no restart clears it. */
  lemma {:induction false} AtMostOneRewardEver(calls: seq<FarmCall>)
    ensures Replay(None, calls).1 <= 1
    decreases |calls|
  {
    if calls != [] {
      var next := Apply(None, calls[0]);
      assert ClaimRow(None, calls[0].at).Err?;
      if next.None? {
        AtMostOneRewardEver(calls[1..]);
      } else {
        AtMostOnceFrom(next.value, calls[1..]);
      }
    }
  }

  lemma {:induction false} AtMostOnceFrom(row: FarmRow, calls: seq<FarmCall>)
    ensures Replay(Some(row), calls).1 <= 1
    decreases |calls|
  {
    if row.isPreviousClaimed {
      ClaimedStaysClaimed(row, calls);
    } else if calls != [] {
      var next := Apply(Some(row), calls[0]);
      assert next.Some?;
      if calls[0].ClaimCall? && ClaimRow(Some(row), calls[0].at).Ok? {
        ClaimedStaysClaimed(next.value, calls[1..]);
      } else {
        AtMostOnceFrom(next.value, calls[1..]);
      }
    }
  }

  /** A first harvest cycle from t0: running
      after an hour and not claimable, expired after nine hours, paid once,
      refused the second time, and startable again. */
  lemma FirstCycleScenario(t0: Time)
    requires t0 >= ZeroTime + CooldownDuration
    ensures var started := StartHarvestRow(None, t0);
      && started == Ok(FarmRow(true, Some(t0), false))
      && StatusOf(Some(started.value), t0 + Hour).0.isInProgress
      && ClaimRow(Some(started.value), t0 + Hour) == Err(NotYetComplete(7 * Hour))
      && var polled := StatusOf(Some(started.value), t0 + 9 * Hour);
      && polled.0 == FarmStatus(false, None, DefaultReward, false)
      && var claimed := ClaimRow(polled.1, t0 + 9 * Hour);
      && claimed == Ok(FarmRow(false, None, true))
      && ClaimRow(Some(claimed.value), t0 + 9 * Hour) == Err(AlreadyClaimed)
      && StartHarvestRow(Some(claimed.value), t0 + 9 * Hour).Ok?
  {
    NullStartPassesCooldown(t0 + 9 * Hour);
  }

  // ---------------------------------------------------------------- the restart quirk

  /** As written, the second cycle can be started but never claimed. */
  lemma SecondCycleNeverPays(t0: Time)
    requires t0 >= ZeroTime
    ensures var calls := [StartCall(t0), ClaimCall(t0 + 8 * Hour),
                          StartCall(t0 + 8 * Hour), ClaimCall(t0 + 16 * Hour)];
      && Replay(None, calls).1 == 1
      && ClaimRow(Replay(None, calls[..3]).0, t0 + 16 * Hour) == Err(AlreadyClaimed)
  {
    var calls := [StartCall(t0), ClaimCall(t0 + 8 * Hour), StartCall(t0 + 8 * Hour), ClaimCall(t0 + 16 * Hour)];
    var r1 := FarmRow(true, Some(t0), false);
    var r2 := FarmRow(false, None, true);
    var r3 := FarmRow(true, Some(t0 + 8 * Hour), true);
    assert Apply(None, calls[0]) == Some(r1);
    assert ClaimRow(Some(r1), t0 + 8 * Hour) == Ok(r2);
    assert Apply(Some(r1), calls[1]) == Some(r2);
    assert Apply(Some(r2), calls[2]) == Some(r3);
    assert ClaimRow(Some(r3), t0 + 16 * Hour) == Err(AlreadyClaimed);
    assert Replay(Some(r3), calls[3..]).1 == 0 by {
      assert calls[3..][1..] == [];
    }
    assert Replay(Some(r2), calls[2..]).1 == 0 by {
      assert calls[2..][1..] == calls[3..];
    }
    assert Replay(Some(r1), calls[1..]).1 == 1 by {
      assert calls[1..][1..] == calls[2..];
    }
    assert Replay(None, calls[..3]).0 == Some(r3) by {
      var pre := calls[..3];
      assert pre[0] == calls[0];
      assert pre[1..][0] == calls[1];
      assert pre[1..][1..][0] == calls[2];
      assert pre[1..][1..][1..] == [];
      assert Replay(Some(r3), pre[1..][1..][1..]).0 == Some(r3);
      assert Replay(Some(r2), pre[1..][1..]).0 == Some(r3);
      assert Replay(Some(r1), pre[1..]).0 == Some(r3);
    }
  }

  /** StartHarvest as evidently intended: a restart, like a first start
      (internal/repository/farm.go:37-52), stores is_previous_claimed = false. */
  function StartHarvestRowIntended(row: Option<FarmRow>, now: Time): (r: Result<FarmRow, FarmError>)
    ensures r.Ok? <==> row.None? || (!row.value.isInProgress && row.value.isPreviousClaimed)
    ensures r.Ok? ==> r.value == FarmRow(true, Some(now), false)
  {
    match row
    case None => Ok(FarmRow(true, Some(now), false))
    case Some(status) =>
      if status.isInProgress then Err(AlreadyInProgress)
      else if !status.isPreviousClaimed then Err(PreviousNotClaimed)
      else Ok(FarmRow(true, Some(now), false))
  }

  /** With the intended restart every cycle pays: from any row a start may
      follow, starting and claiming after the cooldown succeeds, and the
      cycle can be repeated. */
  lemma IntendedCycleRepeats(row: Option<FarmRow>, t: Time)
    requires StartHarvestRowIntended(row, t).Ok?
    ensures var started := StartHarvestRowIntended(row, t).value;
      && ClaimRow(Some(started), t + CooldownDuration) == Ok(FarmRow(false, None, true))
      && StartHarvestRowIntended(Some(FarmRow(false, None, true)), t + CooldownDuration).Ok?
  {
  }
}
