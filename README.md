# Telegram mini-app backend: the game and quest state machines

This Dafny project models the stateful core of the Telegram mini-app backend
(Go, PostgreSQL) and proves what its operations do to the stored tables. The
core is five state machines:

- **Farm harvest** (`FarmRepository`, farm.dfy). There is one `farm_game` row per player. `StartHarvest`, `Status` and
  `ClaimPoints` are modelled with the 8 h cooldown and the 800-point reward.
- **Ball-tap game** (`BallGame`, game.dfy). A `Game` class holds the per-connection fields, and `handleGameLoop`
  is a loop over a finite sequence of incoming frames. The outgoing WebSocket messages are an output
  sequence of `Outbound` values. `bonusPointReward` becomes a field of the game.
- **Energy and points ledger** (`UserRepository`, user.dfy). This covers `CreateUser`, `UpdateUserPoints`, the
  energy table (`GetPlayerEnergy`, `GetEnergyStatus`, `UpdatePlayerEnergy`,
  `ResetEnergy`) and the two rankings.
- **Daily login streak** (`DailyQuestService`, dailyquest.dfy). This covers `GetStatus` and `Claim`, with the reward table
  `500 + DailyBonuses[i]`.
- **Social quests** (`SocialQuestRepository`, `SocialQuestService` and `SocialQuestApi`):
  - the conditional claim and how the repository classifies failures;
  - adding and removing quest validations;
  - quest and validation-kind creation;
  - the id/name zipping of the quest reads;
  - the service's "credit only after a successful claim" rule and its error mapping;
  - the handler's response building and its error-to-status mapping.

Shared state lives in `Tables`:
- Every SQL table the core touches is a map (or a set) in one `Db` value.
- A `Repository` object holds the current `Db`, and each repository operation is a method that reassigns it.
- Each such method's `ensures` ties the new `Db` to a pure function of the old one, and the properties are lemmas about that function.
- `Valid(db)` collects the schema's foreign keys, the daily streak range and the "every user has a row for every social quest" invariant. Lemmas show that registration, quest creation, validation changes and kind creation preserve it.

Time is an integer count of Unix seconds. The clock (`now`) and the
`cooldown_hours` setting are parameters. Errors are an `Error` datatype:
- the sentinel errors of the repository and service packages;
- `Message` for plain `fmt.Errorf` texts;
- `Wrapped(context, cause)` for `%w` wrapping.

`Is` models `errors.Is` by walking the wrapping chain.

The out-of-energy message reports the most recent use (`used_at DESC LIMIT 1`) plus a hard-coded 8 h
(internal/api/game.go:156, internal/repository/user.go:511-538). `BallGame` uses the most recent use
plus `EnergyRechargeDelay`.

## Model

| member | source | states |
|---|---|---|
| Common.Sub | internal/repository/farm.go:163 | `time.Time.Sub` saturates: the result is the exact difference inside the int64-nanosecond range and is clamped to its ends outside it |
| Common.Wrap | internal/service/socialquests.go:82 | wrapping with `%w` keeps every error the cause matches under `errors.Is` |
| FarmRepository.NullStartPassesCooldown | internal/repository/farm.go:163-164 | a NULL `started_at` reads as the zero time, so the elapsed time is at least the cooldown for any realistic clock |
| FarmRepository.StartHarvestRow | internal/repository/farm.go:34-69 | no row → a fresh row (in progress, started now, not claimed); "already in progress" is checked before "previous reward must be claimed"; success iff no row or (not in progress and previous claimed); a restart sets only `is_in_progress` and `started_at` and keeps `is_previous_claimed` |
| FarmRepository.StartHarvest | internal/repository/farm.go:23-82 | the player's row becomes exactly `StartHarvestRow`'s result on success; on either refusal the error is returned and no table changes |
| FarmRepository.StatusOf | internal/repository/farm.go:100-136 | no row → (not in progress, NULL start, 800, previous claimed) with nothing written; an expired cycle (start set, ≥ 8 h) is cleared in the view and in the row alike, keeping `is_previous_claimed`; otherwise the row is untouched; the reward is always 800 |
| FarmRepository.Status | internal/repository/farm.go:84-137 | returns `StatusOf`'s view and writes the expired row back, and nothing else |
| FarmRepository.ClaimRow | internal/repository/farm.go:154-175 | no row → "no farming session found"; under 8 h → "not yet complete" carrying the positive remainder; then "reward already claimed"; success iff a row exists, the cooldown has elapsed (NULL start passes) and the reward is unclaimed, and then the row becomes (not in progress, NULL start, claimed) |
| FarmRepository.AddPoints | internal/repository/farm.go:196-208 | the player's points rise by exactly the reward (no referrer bonus); no other user changes |
| FarmRepository.ClaimPoints | internal/repository/farm.go:139-211 | success returns 800, closes the cycle and credits 800; any refusal returns 0 with the error and changes nothing |
| FarmRepository.ReplayKeepsConsistent | internal/repository/farm.go:23-211 | any sequence of start/status/claim calls keeps "in progress ⇒ started_at set" |
| FarmRepository.ClaimedStaysClaimed | internal/repository/farm.go:65-69 | once `is_previous_claimed` is true no call sequence resets it and no later claim pays |
| FarmRepository.SecondClaimFails | internal/repository/farm.go:163-170 | after a successful claim the next claim of the row always fails, with "reward already claimed" once the clock is past the zero time plus the cooldown |
| FarmRepository.AtMostOneRewardEver | internal/repository/farm.go:139-211 | from no row, any sequence of calls pays the 800 reward at most once |
| FarmRepository.AtMostOnceFrom | internal/repository/farm.go:139-211 | from any existing row, any sequence of calls pays at most once |
| FarmRepository.FirstCycleScenario | internal/repository/farm.go:23-211 | start, poll at +1 h (running, 7 h left), poll at +9 h (expired), claim (paid), claim again (refused), start again (allowed) |
| FarmRepository.SecondCycleNeverPays | internal/repository/farm.go:65-69 | as written: start, claim at +8 h, start again, claim at +16 h pays only once; the second claim is "reward already claimed" |
| FarmRepository.StartHarvestRowIntended | internal/repository/farm.go:65-69 | corrected restart: same acceptance condition as the source, and the new row is (in progress, started now, not claimed) |
| FarmRepository.IntendedCycleRepeats | internal/repository/farm.go:65-69 | with the corrected restart, every started cycle can be claimed after the cooldown and then restarted |
| UserRepository.ReferrerBonus | internal/repository/user.go:268 | the referrer bonus is ⌈p/10⌉: `p <= 10*b < p + 10` |
| UserRepository.Credit | internal/repository/user.go:245-288 | a missing user → ErrNotFound; otherwise the user gains p, a registered referrer gains ⌈p/10⌉, and nobody else changes |
| UserRepository.UpdateUserPoints | internal/repository/user.go:245-288 | the users table becomes `Credit`'s result, all or nothing |
| UserRepository.CreditsAddUp | internal/repository/user.go:252-265 | for a user without a referrer, two credits add up to one credit of the sum |
| UserRepository.AddRows | internal/repository/user.go:114-132 | one new row per listed quest for the user, existing rows untouched |
| UserRepository.Referred | internal/repository/user.go:65-80 | only the named referrer's `referrals` counter rises, by exactly 1 |
| UserRepository.Register | internal/repository/user.go:39-171 | a duplicate key (user, daily row or per-quest row already present) fails as a whole; otherwise it inserts the user, bumps the referrer's counter, adds a daily row with streak 0 and one uncompleted row per social quest and per referral quest, and changes no other table |
| UserRepository.RegisterKeepsValid | internal/repository/user.go:39-171 | registering a new user into a valid database succeeds and keeps it valid |
| UserRepository.RegisteredRowsCovered | internal/repository/user.go:99-167 | after registration every user has exactly the per-quest rows the foreign keys allow |
| UserRepository.InsertRows | internal/repository/user.go:114-132 | the per-quest insert loop fails iff one of its rows already exists, and otherwise adds exactly `AddRows` |
| UserRepository.CreateUser | internal/repository/user.go:39-171 | the transaction commits `Register`'s result or leaves the database unchanged |
| UserRepository.PlayerEnergy | internal/repository/user.go:448-508 | no players row → (3, 3); otherwise the stored total, and remaining = total − uses strictly inside the cooldown window, so remaining ≤ total, with equality iff no use is active |
| UserRepository.NoActiveUses | internal/repository/user.go:486-508 | no use counts iff every use is at or before `now − cooldown` (the boundary is strict) |
| UserRepository.GetPlayerEnergy | internal/repository/user.go:448-509 | returns `PlayerEnergy` and creates the players row (total 3) only when it is missing |
| UserRepository.PlayerRowCreatedOnce | internal/repository/user.go:459-481 | a created players row has total 3 and is never re-created |
| UserRepository.LatestUse | internal/repository/user.go:511-538 | the latest `used_at` among the player's uses, absent iff the player has none |
| UserRepository.GetEnergyStatus | internal/repository/user.go:511-538 | errors ("no rows") iff the player has no use; otherwise returns a stored use whose time is the latest |
| UserRepository.UpdatePlayerEnergy | internal/repository/user.go:540-581 | writes `(player, active_count + 1) ↦ now`, overwriting a colliding key, and changes no other table |
| UserRepository.RecordedUseCounts | internal/repository/user.go:557-567 | when the chosen number is not an active use, the recorded use lowers remaining energy by exactly 1 |
| UserRepository.RecordUseKeepsOthers | internal/repository/user.go:540-581 | recording a use never changes another player's energy |
| UserRepository.CollidingUseCostsNothing | internal/repository/user.go:563-567 | as written: uses #1 at t0 and #2 at t0+1 h, then a game at t0+8 h; #1 has expired, so the number is 2 and overwrites the still-active #2, and remaining stays 2 |
| UserRepository.FreshUseNumber | internal/repository/user.go:563-567 | corrected: a use number that is not yet a key for the player |
| UserRepository.IntendedUseAlwaysCounts | internal/repository/user.go:563-567 | corrected: recording a use under a fresh number always lowers remaining energy by exactly 1 |
| UserRepository.ResetEnergy | internal/repository/user.go:583-619 | deletes exactly the player's uses and nothing else |
| UserRepository.ResetRestoresEnergy | internal/repository/user.go:586-598 | after a reset remaining equals total |
| UserRepository.ResetKeepsOthers | internal/repository/user.go:586-598 | a reset never changes another player's energy |
| UserRepository.RankByPoints | internal/repository/user.go:376-381 | `ORDER BY points DESC`: a permutation of the candidates in non-increasing points order |
| UserRepository.Listing | internal/repository/user.go:398-406 | one summary (id, username, points, referrals) per ranked id, in order |
| UserRepository.GetTopUsers | internal/repository/user.go:372-409 | a negative limit fails (it becomes a LIMIT beyond the bigint range); otherwise min(limit, #users) distinct users in non-increasing points order, and nobody left out has more points than anyone listed |
| UserRepository.TopOfRanking | internal/repository/user.go:376-406 | any prefix of a full descending ranking has the `GetTopUsers` properties |
| UserRepository.GetUserReferrals | internal/repository/user.go:411-445 | exactly the users whose referrer is the given id, each once, in non-increasing points order |
| BallGame.Refresh | internal/api/game.go:127-142 | while playing the game is untouched; otherwise total and remaining energy are reloaded and ready iff remaining > 0; the play flag, hit counter and scores never change |
| BallGame.Game.constructor | internal/api/game.go:90-95 | a new connection: not playing, not ready, nothing sent |
| BallGame.Game.SendGameState | internal/api/game.go:259-281 | appends one `game_state` message with the current fields and changes no field |
| BallGame.Game.HandleGameOver | internal/api/game.go:303-341 | the fields, the ledger, the energy table and the output become `FinishGame` of the old state |
| BallGame.Game.HandleFrame | internal/api/game.go:112-142 | one read: a closed connection stops, a malformed frame is skipped, otherwise energy is refreshed and the message dispatched; the new state is `Step` of the old |
| BallGame.Game.HandleMessage | internal/api/game.go:144-229 | the `switch` on the message type; the new state is `Dispatch` of the old |
| BallGame.Game.HandleGameLoop | internal/api/game.go:104-231 | the loop's final state and end reason are `Run` over the frames |
| BallGame.ScoreClosedForm | internal/api/game.go:186-190 | N hits score `10N + N(N−1)/2` |
| BallGame.StepKeepsConsistent | internal/api/game.go:144-210 | every message keeps the score equal to the closed form of the hit count, with bonus = hits |
| BallGame.RunKeepsConsistent | internal/api/game.go:112-230 | the same over any sequence of frames |
| BallGame.ScoreOfConsistentGame | internal/api/game.go:162-190 | in any reachable game, `2·TotalScore = 20·HitCounter + HitCounter·(HitCounter−1)` |
| BallGame.NoDropNoLedger | internal/api/game.go:104-231 | without a `ball_dropped` frame no points are credited and no energy use is recorded, however the loop ends |
| BallGame.HitsCount | internal/api/game.go:186-191 | n hits raise the hit counter and the bonus by n, keep the other fields, and keep the closed-form score |
| BallGame.HitsThen | internal/api/game.go:172-192 | while playing and ready, n `ball_hit` frames apply n hits and send n `game_state` messages |
| BallGame.SessionRun | internal/api/game.go:104-231 | a start, n hits and a drop run to `FinishGame` of the game after n hits |
| BallGame.FullSession | internal/api/game.go:148-210 | after start, n hits and a drop: not playing, n hits, score `10n + n(n−1)/2`, exactly that score credited (when the user exists), exactly one energy use recorded, and `game_over` sent last |
| BallGame.DropFinishes | internal/api/game.go:194-210 | `ball_dropped` while playing runs `handleGameOver` |
| BallGame.FinishGameWrites | internal/api/game.go:303-341 | `handleGameOver` stops play, sends `game_over` with the final score and hits, credits the score once (a missing user credits nothing) and records one energy use |
| BallGame.StartSteps | internal/api/game.go:148-170 | a first `game_start` with energy starts a zeroed game and sends its state |
| BallGame.OutOfEnergyOnlyReports | internal/api/game.go:148-160 | without energy, start/hit/drop only send "out of energy" with the latest use + 8 h, or end the loop when there is no use; no game field beyond the energy refresh changes and no ledger write happens |
| BallGame.IdleMessagesAreQuiet | internal/api/game.go:172-210 | a hit or drop while ready but not playing, or a malformed frame, changes nothing but the energy refresh and sends nothing |
| BallGame.StartBeginsOnce | internal/api/game.go:162-170 | `game_start` sets playing, zeroes hits, score, hit score and bonus, takes exactly one energy, sends `game_state`; a second `game_start` changes nothing |
| BallGame.PlayingKeepsEnergy | internal/api/game.go:133-146 | while playing, `player_state` reports the game's own energy fields without reloading them |
| BallGame.RechargeOnlyAcknowledges | internal/api/game.go:212-228 | `energy_recharge` only sends the success acknowledgement |
| DailyQuestService.BuildDailyRewards | internal/service/dailyquest.go:71-76 | seven entries, entry i = (day i+1, 500 + `DailyBonuses[i]`) |
| DailyQuestService.RewardsGrow | internal/service/dailyquest.go:12-16 | rewards rise strictly from 500 on day 1 to 1200 on day 7 |
| DailyQuestService.StatusOf | internal/service/dailyquest.go:37-79 | never claimed → available, no next time, streak 0; otherwise next = last + 24 h, available iff strictly after it, and the streak reads 0 strictly after last + 48 h |
| DailyQuestService.NextStreak | internal/service/dailyquest.go:92-95 | the next streak is the old + 1, wrapping 7 → 1, always in 1..7 |
| DailyQuestService.ClaimOf | internal/service/dailyquest.go:81-97 | refused iff the status is not available; otherwise the row becomes (now, next streak) and the reward is that day's table entry |
| DailyQuestService.ClaimClosesForADay | internal/service/dailyquest.go:53-55 | after a claim, the next claim is refused up to 24 h later and allowed strictly after |
| DailyQuestService.StreakContinuesOrRestarts | internal/service/dailyquest.go:57-95 | a claim between 24 h and 48 h later continues the streak; later than 48 h restarts it at day 1 |
| DailyQuestService.TestedCases | internal/service/dailyquest_test.go:66-288 | the unit-test cases: 12 h, 25 h and 49 h after the last claim; the first claim (day 1, 500); day 3 (780); the wrap after day 7; the refusal |
| DailyQuestService.GetStatus | internal/service/dailyquest.go:28-79 | no user or no daily row → ErrUserNotFound with nothing written; otherwise `StatusOf`, with a forgotten streak written back as 0 |
| DailyQuestService.Claim | internal/service/dailyquest.go:81-114 | no user or no daily row → ErrUserNotFound with nothing written; not available → ErrClaimNotAvailable with nothing written (a refused claim never has a forgotten streak to reset); otherwise the row becomes (now, next streak), the day's reward is credited and no error is returned |
| DailyQuestService.RefusalKeepsRow | internal/service/dailyquest.go:53-67 | whenever a claim is refused, the status read leaves the daily row unchanged (a reset needs more than 48 h, a refusal at most 24 h) |
| DailyQuestService.ClaimKeepsStreakInRange | internal/service/dailyquest.go:57-95 | status resets and claims keep the stored streak in 0..7 |
| SocialQuestRepository.ClaimRow | internal/repository/socialquests.go:212-274 | succeeds iff the row exists, is started and is not completed, and then completes and stamps only that row; otherwise no row → ErrNotFound, then ErrQuestNotStarted before ErrQuestAlreadyClaimed |
| SocialQuestRepository.ClaimQuest | internal/repository/socialquests.go:212-274 | the table becomes `ClaimRow`'s result, or is unchanged with its error |
| SocialQuestRepository.ClaimNarrows | internal/repository/socialquests.go:217-224 | a claim makes nothing newly claimable and closes the claimed pair |
| SocialQuestRepository.ClaimGrantedAtMostOnce | internal/repository/socialquests.go:212-274 | over any sequence of claims each (user, quest) is granted at most once, and only if it was claimable at the start |
| SocialQuestRepository.ClaimTwice | internal/repository/socialquests.go:212-271 | the first claim of a claimable quest succeeds and the second returns ErrQuestAlreadyClaimed |
| SocialQuestRepository.AddValidation | internal/repository/socialquests.go:405-477 | checks quest, then kind, then pair (ErrQuestNotFound, ErrValidationNotFound, ErrValidationAlreadyExists); otherwise adds exactly that pair |
| SocialQuestRepository.RemoveValidation | internal/repository/socialquests.go:479-506 | removes exactly the pair, or ErrNotFound when it is absent |
| SocialQuestRepository.AddQuestValidation | internal/repository/socialquests.go:405-477 | the database becomes `AddValidation`'s result, or is unchanged with its error |
| SocialQuestRepository.RemoveQuestValidation | internal/repository/socialquests.go:479-506 | the database becomes `RemoveValidation`'s result, or is unchanged with its error |
| SocialQuestRepository.RemoveUndoesAdd | internal/repository/socialquests.go:405-506 | removing a just-added pair restores the database |
| SocialQuestRepository.AddUndoesRemove | internal/repository/socialquests.go:405-506 | in a valid database, re-adding a just-removed pair restores it |
| SocialQuestRepository.SecondAddOrRemoveFails | internal/repository/socialquests.go:444-503 | a repeated add is ErrValidationAlreadyExists and a repeated remove is ErrNotFound |
| SocialQuestRepository.ValidationChangesKeepValid | internal/repository/socialquests.go:405-506 | adding or removing a pair keeps the database valid |
| SocialQuestRepository.AddKind | internal/repository/socialquests.go:356-375 | the serial always advances; the kind is stored under the serial's value unless that id is taken, and nothing else changes |
| SocialQuestRepository.CreateValidationKind | internal/repository/socialquests.go:356-375 | the database and error are `AddKind`'s |
| SocialQuestRepository.AddKindKeepsValid | internal/repository/socialquests.go:356-375 | in a valid database the insert always succeeds and keeps it valid |
| SocialQuestRepository.ValidationPairs | internal/repository/socialquests.go:298-316 | one (quest, id) pair per listed validation |
| SocialQuestRepository.QuestRowsFor | internal/repository/socialquests.go:332-350 | one uncompleted, unstarted row per user for the new quest |
| SocialQuestRepository.CreateQuest | internal/repository/socialquests.go:276-354 | fails as a whole on a duplicate quest id, an unknown kind or a clashing user row; otherwise inserts the quest, its validation pairs and one fresh row per existing user, and nothing else |
| SocialQuestRepository.InsertValidations | internal/repository/socialquests.go:298-316 | the validation insert loop fails iff a kind is unknown, and otherwise adds exactly `ValidationPairs` |
| SocialQuestRepository.InsertQuestRows | internal/repository/socialquests.go:318-350 | the per-user insert loop fails iff a row already exists, and otherwise adds exactly `QuestRowsFor` |
| SocialQuestRepository.CreateSocialQuest | internal/repository/socialquests.go:276-354 | the transaction commits `CreateQuest`'s result or changes nothing |
| SocialQuestRepository.CreateQuestKeepsValid | internal/repository/socialquests.go:276-354 | a new quest with known kinds is created and keeps the database valid |
| SocialQuestRepository.ValidationIdsOf | internal/repository/socialquests.go:45-52 | the ids aggregated for a quest are exactly its `quest_validations` pairs |
| SocialQuestRepository.KindNames | internal/repository/socialquests.go:46-53 | the aggregated names follow the ids one for one when every id has a kind |
| SocialQuestRepository.RecordOf | internal/repository/socialquests.go:38-56 | the grouped row for a quest carries its id, with as many names as ids when all resolve |
| SocialQuestRepository.QuestOrder | internal/repository/socialquests.go:56 | `ORDER BY quest_id`: every quest once, strictly ascending |
| SocialQuestRepository.QuestsQuery | internal/repository/socialquests.go:37-71 | fails (NULL `completed` scan) iff some quest has no row for the user; otherwise one record per quest in id order |
| SocialQuestRepository.QuestQuery | internal/repository/socialquests.go:147-181 | no quest → no rows; no user row → the NULL scan error; otherwise that quest's record |
| SocialQuestRepository.ZipValidations | internal/repository/socialquests.go:80-87 | `validations[j] = (ids[j], names[j])` with length `len(ids)` |
| SocialQuestRepository.Assemble | internal/repository/socialquests.go:80-106 | the quest and user-quest built from one grouped row share its quest id |
| SocialQuestRepository.UserQuestOf | internal/repository/socialquests.go:99-105 | the user-quest carries the quest id and the user id |
| SocialQuestRepository.ZippedListsValidations | internal/repository/socialquests.go:80-87 | zipped ids and names list exactly the quest's validations, in ascending id order |
| SocialQuestRepository.AssembledDescribes | internal/repository/socialquests.go:80-106 | an assembled quest describes the stored quest and its validations, and its user-quest is the stored row |
| SocialQuestRepository.GetQuestsData | internal/repository/socialquests.go:37-109 | fails with the NULL scan error iff a user row is missing; otherwise parallel quest and user-quest lists over all quests, in id order |
| SocialQuestRepository.AssembleAll | internal/repository/socialquests.go:77-106 | the assembly loop builds one quest and one user-quest per record, index by index |
| SocialQuestRepository.AssembledListsQuests | internal/repository/socialquests.go:77-108 | assembling the query's records lists every quest and its row |
| SocialQuestRepository.GetQuestDataByID | internal/repository/socialquests.go:147-210 | no quest → ErrNotFound; a missing user row → the wrapped scan error; otherwise the described quest and its stored row |
| SocialQuestRepository.UserValidations | internal/repository/socialquests.go:111-145 | exactly the (id, name) pairs of the user's validations whose kind exists |
| SocialQuestService.GetUserQuests | internal/service/socialquests.go:25-42 | fails, wrapped, iff the quests read fails; otherwise both repository results unchanged, plus the user's validation set |
| SocialQuestService.GetQuestByID | internal/service/socialquests.go:44-64 | a repository ErrNotFound becomes ErrQuestNotFound; other failures are wrapped; otherwise the quest, its row and the user's validations |
| SocialQuestService.ClaimErrorOf | internal/service/socialquests.go:72-84 | ErrNotFound → ErrQuestNotFound, ErrQuestNotStarted → ErrQuestNotStarted, ErrQuestAlreadyClaimed → ErrQuestAlreadyClaimed, checked in that order; anything else is wrapped and still matches its cause |
| SocialQuestService.RefusedClaimsAreClassified | internal/service/socialquests.go:72-84 | every refused repository claim maps to exactly one of the three service errors, each iff its row condition holds |
| SocialQuestService.ClaimOutcome | internal/service/socialquests.go:66-92 | succeeds iff the quest exists, the row is claimable and the user exists, and then completes the row and credits exactly the quest's reward; a claim that does not go through changes nothing; a missing quest is ErrQuestNotFound |
| SocialQuestService.ClaimQuest | internal/service/socialquests.go:66-92 | the lookup, claim and credit calls in order leave exactly `ClaimOutcome`'s database and error |
| SocialQuestService.ClaimPaysOnce | internal/service/socialquests.go:66-92 | a claimable quest pays its reward once; a second claim is ErrQuestAlreadyClaimed with nothing changed |
| SocialQuestService.ValidClaimErrors | internal/service/socialquests.go:66-84 | for an existing user in a valid database a claim ends in success or one of the three service errors |
| SocialQuestService.CreateSocialQuest | internal/service/socialquests.go:94-100 | success returns the quest's own id; failure returns the nil id with the wrapped error and changes nothing |
| SocialQuestService.UpperChar | internal/service/socialquests.go:107 | ASCII upper-casing of one character |
| SocialQuestService.ToUpper | internal/service/socialquests.go:107 | upper-casing character by character, same length |
| SocialQuestService.UpperIdempotent | internal/service/socialquests.go:107 | upper-casing twice (handler, then service) equals upper-casing once |
| SocialQuestService.CreateValidationKind | internal/service/socialquests.go:102-109 | an empty name is refused before any write; otherwise the caller's record is upper-cased in place and stored |
| SocialQuestService.CreatedKindsStayUpper | internal/service/socialquests.go:102-109 | kinds created through the service keep every stored name upper-case |
| SocialQuestApi.Views | internal/api/socialquests.go:99-105 | one view per validation, in order |
| SocialQuestApi.RequiredValidations | internal/api/socialquests.go:99-105 | the required list has the quest's validations, same length and order |
| SocialQuestApi.Completed | internal/api/socialquests.go:107-115 | exactly the views of the quest's validations the user has completed |
| SocialQuestApi.CompletedValidations | internal/api/socialquests.go:107-115 | the filtering loop computes `Completed` |
| SocialQuestApi.CompletedIsSubsequence | internal/api/socialquests.go:107-115 | the completed list is an order-preserving subsequence of the required list |
| SocialQuestApi.CompletedExtremes | internal/api/socialquests.go:107-115 | all done → completed = required; none done → empty |
| SocialQuestApi.UnixOrNull | internal/api/socialquests.go:117-125 | null iff the stored time is null; otherwise its Unix seconds |
| SocialQuestApi.UserQuestMap | internal/api/socialquests.go:90-93 | the map has a key per quest id present, and the last user-quest with that id wins |
| SocialQuestApi.Respond | internal/api/socialquests.go:127-142 | one response field by field from the quest, its user-quest and the validation lists |
| SocialQuestApi.RespondAnswers | internal/api/socialquests.go:95-142 | a response built from a described quest and its stored row answers for that quest |
| SocialQuestApi.Responses | internal/api/socialquests.go:95-143 | the response loop answers every listed quest, index by index |
| SocialQuestApi.GetUserQuests | internal/api/socialquests.go:72-146 | no telegram id → 400; a failing read → 500; otherwise 200 with one correct response per quest, ascending by quest id |
| SocialQuestApi.GetQuestByID | internal/api/socialquests.go:148-223 | bad ids → 400; unknown quest → 404; unreadable row → 500; otherwise 200 with the quest's response |
| SocialQuestApi.ClaimStatus | internal/api/socialquests.go:242-256 | success → 200, ErrQuestNotFound → 404, not started or already claimed → 403, any other error → 500 |
| SocialQuestApi.ClaimQuest | internal/api/socialquests.go:225-257 | bad ids → 400 with nothing changed; otherwise the service's outcome and its status |
| SocialQuestApi.ClaimAnswers | internal/api/socialquests.go:225-257 | for an existing user in a valid database, 200 iff the quest is claimable; otherwise 403 or 404, never 500 |
| SocialQuestApi.CreateValidationKind | internal/api/socialquests.go:321-343 | an empty name → 400 with nothing written; otherwise the upper-cased name is stored, 201 on success and 500 on a failed insert |

## Left out

- Concurrency: the goroutine per connection, the `activeGames` registry with its `gamesMutex`, the unused `Game.mu`, and read-then-write races in the farm and quest code. Every operation runs sequentially.
- The package-level `bonusPointReward` is shared by all games in the source. The model keeps one per game. That is the same thing for a single session; interleaved sessions are not modelled.
- Transport and formatting are left out: the WebSocket upgrade, reads and writes, `json.MarshalIndent`, gin routing and binding, response body texts, and logging. Frames and outgoing messages are datatypes. A write failure, which the source only logs, is not modelled.
- SQL text building (squirrel), `NOW()` and the `cooldown_settings` join are left out. The clock and `cooldown_hours` are parameters.
- Database driver failures are left out: query-build errors, connection errors, `RowsAffected` errors. The model's errors are the ones the table contents decide.
- UserRepository.ReferrerBonus: the bonus is `math.Ceil(float64(points)*0.1)` in the source. It is modelled as the integer ⌈p/10⌉, which agrees for the in-range integers the game produces. IEEE rounding is not modelled.
- Sub-second time precision and int64 overflow of points and counters are not modelled. `Common.Sub` keeps the duration saturation because a NULL `started_at` depends on it.
- Foreign keys and primary keys are schema assumptions. They are collected in `Tables.Valid`, and the lemmas that need them require it.
- `array_agg` gives no order in SQL. The model lists a quest's validation ids in ascending order, and duplicate validations of one quest collapse to one pair.
- SocialQuestRepository.NamesResolve: the quest reads require every aggregated id to have a kind. Otherwise the index-wise zipping panics on a shorter names array in Go.
- The social quest id is a uuid in the source. The model uses an integer so that `ORDER BY quest_id` is a total order. `uuid.New` in the `CreateSocialQuest` handler is not modelled, and the quest id arrives as a parameter.
- Stale or non-compiling code is left out: internal/api/farm.go, `GetHarvestPoints`, the `QuestType`/`ActionType`/`Link`/`ChatID` response fields, `IsAdmin`, and internal/service/store.go.
- Authentication, Telegram init-data checks, avatar URL signing and invoices are not part of this model.
- Plain handlers are not modelled:
  - `ListValidationKinds` (repository, service and handler);
  - the admin `AddQuestValidation`/`RemoveQuestValidation` handlers and their service wrappers, which only wrap the repository error;
  - the `CreateSocialQuest` handler;
  - the `ResetEnergy` admin handler;
  - `GetUserByTelegramID`, `UpdateUserWaitlistStatus`/`GetUserWaitlistStatus`;
  - the other handlers in users.go, dailyquest.go and referralquests.go.
- No unique constraint on validation names is visible in the source. The 409 branch of the `CreateValidationKind` handler is therefore unreachable in the model.
- SocialQuestService.ToUpper: only ASCII letters are upper-cased. Go's Unicode case mapping is not modelled.
- DailyQuestService.Claim requires every stored streak to be non-negative. A negative streak would index `DailyBonuses[-1]` and panic in Go.
- DailyQuestService.Claim: the failed points credit after the streak write (internal/service/dailyquest.go:108-111) is unreachable in the model. `GetStatus` has already found the user, and the model's tables cannot fail; only the mocked repository of the unit tests reaches it.
- `GetUserValidationsStatus` failures are not modelled. The model's table read cannot fail, so the service's "failed to get validation status" branch and the handler's 404 for `ErrUserNotFound` are unreachable.
- BallGame.Game.HandleGameLoop reads a finite sequence of frames and ends with `InputExhausted` when it runs out. The source blocks for the next read instead.
- The `handleGameOver` logging of a failed `UpdateUserPoints` or `UpdatePlayerEnergy` is not modelled. The model's `UpdatePlayerEnergy` cannot fail, and a credit to a missing user changes nothing.

## Findings

| source | as written | input that shows it | evidently intended | confidence | as-written member | corrected member |
|---|---|---|---|---|---|---|
| internal/repository/farm.go:65-69 | a restart of an existing row upserts with `ON CONFLICT ... SET is_in_progress, started_at`, so `is_previous_claimed` stays true | start at t0, claim at t0+8 h, start at t0+8 h, claim at t0+16 h: the second claim is "reward already claimed" | a restart begins a cycle whose reward can be claimed, as the first start does by storing `is_previous_claimed = false` | not executed | FarmRepository.SecondCycleNeverPays | FarmRepository.IntendedCycleRepeats |
| internal/repository/user.go:563-567 | a use is recorded under `active_count + 1`, overwriting the row with that number | uses #1 at t0 and #2 at t0+1 h, game over at t0+8 h with an 8 h cooldown: #1 has expired, the count is 1, number 2 overwrites the active #2, and remaining energy stays 2 | every finished game consumes one energy unit | not executed | UserRepository.CollidingUseCostsNothing | UserRepository.IntendedUseAlwaysCounts |
