/** The ball-tap game session of internal/api/game.go: one Game record per
    WebSocket connection, changed by a stream of typed messages; points and
    an energy use reach the database only when the ball drops. */
module BallGame {
  import opened Common
  import opened Tables
  import opened UserRepository

  /** basePointReward. */
  const BasePointReward: int := 10
  /** The next energy is announced this long after the latest use (hard-coded
      in the handler, independent of the cooldown setting). */
  const EnergyRechargeDelay: int := 8 * Hour

  /** A message written to the connection. */
  datatype Outbound =
    | PlayerState(totalEnergy: int, remainingEnergy: int)
    | GameState(totalScore: int, currentHitScore: int, hitCounter: int,
                totalEnergy: int, remainingEnergy: int, isPlaying: bool)
    | ErrorMessage(message: string, nextAvailableEnergyUnix: Time)
    | GameOver(finalScore: int, finalHitCounter: int, remainingEnergy: int, isPlaying: bool)
    | EnergyRecharge(status: string)

  /** One read from the connection: a text frame received at a given
      instant, whose JSON either fails to decode (None) or carries a message
      type; or a read error, which ends the loop. */
  datatype Frame = Text(at: Time, messageType: Option<string>) | Closed

  /** Why the loop ended: a read error, a failed energy-status lookup, or
      (in the model only) no more frames to read. */
  datatype EndReason = ConnectionClosed | EnergyStatusFailed | InputExhausted

  /** The Game fields, with bonusPointReward moved in from package scope. */
  datatype GameView = GameView(
    totalEnergy: int,
    remainingEnergy: int,
    isPlaying: bool,
    isReadyToPlay: bool,
    hitCounter: int,
    totalScore: int,
    currentHitScore: int,
    bonusPointReward: int)

  const NewGame: GameView := GameView(0, 0, false, false, 0, 0, 0, 0)

  /** Everything a session can change: its Game, the database and the
      messages written so far. */
  datatype World = World(game: GameView, db: Db, sent: seq<Outbound>)

  datatype StepResult = Next(world: World) | Stop(world: World, reason: EndReason)

  // ---------------------------------------------------------------- one message

  function StateMessage(g: GameView): Outbound
  {
    GameState(g.totalScore, g.currentHitScore, g.hitCounter, g.totalEnergy, g.remainingEnergy, g.isPlaying)
  }

  /** The energy fields refreshed from the store, only while not playing. */
  function Refresh(g: GameView, e: Energy): (r: GameView)
    ensures g.isPlaying ==> r == g
    ensures !g.isPlaying ==>
      && r.totalEnergy == e.total && r.remainingEnergy == e.remaining
      && r.isReadyToPlay == (e.remaining > 0)
    // the play state and the scores are never touched
    ensures r.isPlaying == g.isPlaying && r.hitCounter == g.hitCounter
      && r.totalScore == g.totalScore && r.currentHitScore == g.currentHitScore
      && r.bonusPointReward == g.bonusPointReward
  {
    if g.isPlaying then g
    else g.(totalEnergy := e.total, remainingEnergy := e.remaining, isReadyToPlay := e.remaining > 0)
  }

  /** game_start when ready and not playing. */
  function Start(g: GameView): GameView
  {
    g.(isPlaying := true, hitCounter := 0, totalScore := 0, currentHitScore := 0,
       bonusPointReward := 0, remainingEnergy := g.remainingEnergy - 1)
  }

  /** ball_hit while playing. */
  function Hit(g: GameView): GameView
  {
    var score := BasePointReward + g.bonusPointReward;
    g.(currentHitScore := score, bonusPointReward := g.bonusPointReward + 1,
       totalScore := g.totalScore + score, hitCounter := g.hitCounter + 1)
  }

  /** handleGameOver: the game_over message, then one credit of the score
      (its error only logged) and one recorded energy use. */
  function FinishGame(w: World, player: UserId, now: Time, cooldownHours: int): World
  {
    var g := w.game.(isPlaying := false);
    var credit := Credit(w.db.users, player, g.totalScore);
    var db := w.db.(users := if credit.Ok? then credit.value else w.db.users);
    World(g, db.(energyUses := RecordUse(db, player, now, cooldownHours)),
          w.sent + [GameOver(g.totalScore, g.hitCounter, g.remainingEnergy, g.isPlaying)])
  }

  predicate NeedsEnergy(kind: string)
  {
    kind == "game_start" || kind == "ball_hit" || kind == "ball_dropped"
  }

  /** The switch on the message type, after the energy refresh. */
  ghost function Dispatch(w: World, player: UserId, now: Time, kind: string, cooldownHours: int): StepResult
  {
    var g := w.game;
    if kind == "player_state" then
      Next(w.(sent := w.sent + [PlayerState(g.totalEnergy, g.remainingEnergy)]))
    else if NeedsEnergy(kind) && !g.isReadyToPlay then
      var latest := LatestUse(w.db.energyUses, player);
      if latest.None? then Stop(w, EnergyStatusFailed)
      else Next(w.(sent := w.sent + [ErrorMessage("out of energy", latest.value + EnergyRechargeDelay)]))
    else if kind == "game_start" then
      if g.isPlaying then Next(w)
      else Next(World(Start(g), w.db, w.sent + [StateMessage(Start(g))]))
    else if kind == "ball_hit" then
      if g.isPlaying then Next(World(Hit(g), w.db, w.sent + [StateMessage(Hit(g))]))
      else Next(w)
    else if kind == "ball_dropped" then
      if g.isPlaying then Next(FinishGame(w, player, now, cooldownHours))
      else Next(w)
    else if kind == "energy_recharge" then
      Next(w.(sent := w.sent + [EnergyRecharge("success")]))
    else
      Next(w)
  }

  /** One iteration of handleGameLoop. */
  ghost function Step(w: World, player: UserId, frame: Frame, cooldownHours: int): StepResult
  {
    match frame
    case Closed => Stop(w, ConnectionClosed)
    case Text(now, messageType) =>
      if messageType.None? then Next(w)
      else
        var e := PlayerEnergy(w.db, player, now, cooldownHours);
        var db := w.db.(players := WithPlayer(w.db.players, player));
        Dispatch(World(Refresh(w.game, e), db, w.sent), player, now, messageType.value, cooldownHours)
  }

  /** The loop over a sequence of frames. */
  ghost function Run(w: World, player: UserId, frames: seq<Frame>, cooldownHours: int): (World, EndReason)
    decreases |frames|
  {
    if frames == [] then (w, InputExhausted)
    else
      match Step(w, player, frames[0], cooldownHours)
      case Stop(last, reason) => (last, reason)
      case Next(next) => Run(next, player, frames[1..], cooldownHours)
  }

  // ---------------------------------------------------------------- the connection handler

  class Game {
    const playerId: UserId
    var totalEnergy: int
    var remainingEnergy: int
    var isPlaying: bool
    var isReadyToPlay: bool
    var hitCounter: int
    var totalScore: int
    var currentHitScore: int
    var bonusPointReward: int
    /** The messages written to the connection, oldest first. */
    var sent: seq<Outbound>

    /** The Game handleWebSocket registers: nothing played, not ready. */
    constructor (player: UserId)
      ensures playerId == player && View() == NewGame && sent == []
    {
      playerId := player;
      totalEnergy, remainingEnergy := 0, 0;
      isPlaying, isReadyToPlay := false, false;
      hitCounter, totalScore, currentHitScore, bonusPointReward := 0, 0, 0, 0;
      sent := [];
    }

    function View(): GameView
      reads this
    {
      GameView(totalEnergy, remainingEnergy, isPlaying, isReadyToPlay,
               hitCounter, totalScore, currentHitScore, bonusPointReward)
    }

    function State(repo: Repository): World
      reads this, repo
    {
      World(View(), repo.db, sent)
    }

    method SendGameState()
      modifies this
      ensures sent == old(sent) + [StateMessage(View())] && View() == old(View())
    {
      sent := sent + [GameState(totalScore, currentHitScore, hitCounter, totalEnergy, remainingEnergy, isPlaying)];
    }

    method HandleGameOver(repo: Repository, now: Time, cooldownHours: int)
      modifies this, repo
      ensures State(repo) == FinishGame(old(State(repo)), playerId, now, cooldownHours)
    {
      isPlaying := false;
      sent := sent + [GameOver(totalScore, hitCounter, remainingEnergy, isPlaying)];
      var err := UpdateUserPoints(repo, playerId, totalScore);
      UpdatePlayerEnergy(repo, playerId, now, cooldownHours);
    }

    /** One iteration: Some(reason) when the loop returns or breaks. */
    method HandleFrame(repo: Repository, frame: Frame, cooldownHours: int) returns (stop: Option<EndReason>)
      modifies this, repo
      ensures var s := Step(old(State(repo)), playerId, frame, cooldownHours);
        && State(repo) == s.world
        && stop == (if s.Stop? then Some(s.reason) else None)
    {
      if frame.Closed? {
        return Some(ConnectionClosed);
      }
      if frame.messageType.None? {
        return None;
      }
      var now := frame.at;
      var kind := frame.messageType.value;
      var total, remaining := GetPlayerEnergy(repo, playerId, now, cooldownHours);
      if !isPlaying {
        totalEnergy := total;
        remainingEnergy := remaining;
        isReadyToPlay := remainingEnergy > 0;
      }
      stop := HandleMessage(repo, now, kind, cooldownHours);
    }

    /** The switch on the message type, once the energy fields are fresh. */
    method HandleMessage(repo: Repository, now: Time, kind: string, cooldownHours: int) returns (stop: Option<EndReason>)
      modifies this, repo
      ensures var s := Dispatch(old(State(repo)), playerId, now, kind, cooldownHours);
        && State(repo) == s.world
        && stop == (if s.Stop? then Some(s.reason) else None)
    {
      if kind == "player_state" {
        sent := sent + [PlayerState(totalEnergy, remainingEnergy)];
      } else if NeedsEnergy(kind) && !isReadyToPlay {
        var status := GetEnergyStatus(repo, playerId);
        if status.Err? {
          return Some(EnergyStatusFailed);
        }
        sent := sent + [ErrorMessage("out of energy", status.value.1 + EnergyRechargeDelay)];
      } else if kind == "game_start" {
        if !isPlaying {
          isPlaying := true;
          hitCounter, totalScore, currentHitScore := 0, 0, 0;
          bonusPointReward := 0;
          remainingEnergy := remainingEnergy - 1;
          SendGameState();
        }
      } else if kind == "ball_hit" {
        if isPlaying {
          currentHitScore := BasePointReward + bonusPointReward;
          bonusPointReward := bonusPointReward + 1;
          totalScore := totalScore + currentHitScore;
          hitCounter := hitCounter + 1;
          SendGameState();
        }
      } else if kind == "ball_dropped" {
        if isPlaying {
          isPlaying := false;
          HandleGameOver(repo, now, cooldownHours);
        }
      } else if kind == "energy_recharge" {
        sent := sent + [EnergyRecharge("success")];
      }
      stop := None;
    }

    /** handleGameLoop over the frames the connection delivers. */
    method HandleGameLoop(repo: Repository, frames: seq<Frame>, cooldownHours: int) returns (reason: EndReason)
      modifies this, repo
      ensures (State(repo), reason) == Run(old(State(repo)), playerId, frames, cooldownHours)
    {
      var i := 0;
      while i < |frames|
        invariant 0 <= i <= |frames|
        invariant Run(old(State(repo)), playerId, frames, cooldownHours)
               == Run(State(repo), playerId, frames[i..], cooldownHours)
      {
        assert frames[i..][1..] == frames[i + 1..];
        var stop := HandleFrame(repo, frames[i], cooldownHours);
        if stop.Some? {
          return stop.value;
        }
        i := i + 1;
      }
      return InputExhausted;
    }
  }

  // ---------------------------------------------------------------- properties

  /** The score of n hits from a fresh start: 10 + 11 + ... + (10 + n - 1). */
  function ScoreFor(n: nat): int
  {
    if n == 0 then 0 else ScoreFor(n - 1) + BasePointReward + (n - 1)
  }

  lemma {:induction false} ScoreClosedForm(n: nat)
    ensures 2 * ScoreFor(n) == 20 * n + n * (n - 1)
  {
    if n > 0 {
      ScoreClosedForm(n - 1);
      assert n * (n - 1) == (n - 1) * (n - 2) + 2 * (n - 1);
    }
  }

  /** What every session keeps: a running game was started with energy to
      spare, the bonus counts the hits, and the score is that of the hits. */
  predicate Consistent(g: GameView)
  {
    && (g.isPlaying ==> g.isReadyToPlay && g.remainingEnergy >= 0)
    && g.hitCounter >= 0
    && g.bonusPointReward == g.hitCounter
    && g.totalScore == ScoreFor(g.hitCounter)
  }

  lemma StepKeepsConsistent(w: World, player: UserId, frame: Frame, cooldownHours: int)
    requires Consistent(w.game)
    ensures Consistent(Step(w, player, frame, cooldownHours).world.game)
  {
  }

  lemma {:induction false} RunKeepsConsistent(w: World, player: UserId, frames: seq<Frame>, cooldownHours: int)
    requires Consistent(w.game)
    ensures Consistent(Run(w, player, frames, cooldownHours).0.game)
    decreases |frames|
  {
    if frames != [] {
      StepKeepsConsistent(w, player, frames[0], cooldownHours);
      var s := Step(w, player, frames[0], cooldownHours);
      if s.Next? {
        RunKeepsConsistent(s.world, player, frames[1..], cooldownHours);
      }
    }
  }

  /** So the score of a session with n hits is 10n + n(n-1)/2. */
  lemma ScoreOfConsistentGame(g: GameView)
    requires Consistent(g)
    ensures 2 * g.totalScore == 20 * g.hitCounter + g.hitCounter * (g.hitCounter - 1)
  {
    ScoreClosedForm(g.hitCounter);
  }

  predicate IsDrop(frame: Frame)
  {
    frame.Text? && frame.messageType == Some("ball_dropped")
  }

  /** Points and energy uses change only through handleGameOver: without a
      ball_dropped message, and in particular when the connection closes
      first, the ledger and the energy uses are as before. */
  lemma {:induction false} NoDropNoLedger(w: World, player: UserId, frames: seq<Frame>, cooldownHours: int)
    requires forall i :: 0 <= i < |frames| ==> !IsDrop(frames[i])
    ensures Run(w, player, frames, cooldownHours).0.db.users == w.db.users
    ensures Run(w, player, frames, cooldownHours).0.db.energyUses == w.db.energyUses
    decreases |frames|
  {
    if frames != [] {
      var s := Step(w, player, frames[0], cooldownHours);
      assert s.world.db.users == w.db.users && s.world.db.energyUses == w.db.energyUses;
      if s.Next? {
        NoDropNoLedger(s.world, player, frames[1..], cooldownHours);
      }
    }
  }

  function HitFrames(times: seq<Time>): (frames: seq<Frame>)
    ensures |frames| == |times|
    ensures forall i :: 0 <= i < |times| ==> frames[i] == Text(times[i], Some("ball_hit"))
  {
    if times == [] then [] else [Text(times[0], Some("ball_hit"))] + HitFrames(times[1..])
  }

  /** The game after n hits. */
  function Hits(g: GameView, n: nat): GameView
    decreases n
  {
    if n == 0 then g else Hits(Hit(g), n - 1)
  }

  lemma {:induction false} HitsCount(g: GameView, n: nat)
    ensures Hits(g, n).hitCounter == g.hitCounter + n
    ensures Hits(g, n).bonusPointReward == g.bonusPointReward + n
    ensures Hits(g, n) == g.(hitCounter := Hits(g, n).hitCounter, bonusPointReward := Hits(g, n).bonusPointReward,
                             totalScore := Hits(g, n).totalScore, currentHitScore := Hits(g, n).currentHitScore)
    ensures g.bonusPointReward == g.hitCounter >= 0 && g.totalScore == ScoreFor(g.hitCounter) ==>
      Hits(g, n).totalScore == ScoreFor(g.hitCounter + n)
    decreases n
  {
    if n > 0 {
      HitsCount(Hit(g), n - 1);
    }
  }

  /** The game_state messages n hits send, one per hit. */
  function HitMessages(g: GameView, n: nat): seq<Outbound>
    decreases n
  {
    if n == 0 then [] else [StateMessage(Hit(g))] + HitMessages(Hit(g), n - 1)
  }

  /** A run of hits while playing changes only the score fields and the
      output, and leads into whatever follows. */
  lemma {:induction false} HitsThen(w: World, player: UserId, times: seq<Time>, rest: seq<Frame>, cooldownHours: int)
    requires w.game.isPlaying && w.game.isReadyToPlay && player in w.db.players
    ensures Run(w, player, HitFrames(times) + rest, cooldownHours)
         == Run(World(Hits(w.game, |times|), w.db, w.sent + HitMessages(w.game, |times|)), player, rest, cooldownHours)
    decreases |times|
  {
    if times == [] {
      assert HitFrames(times) + rest == rest;
      assert w.sent + HitMessages(w.game, 0) == w.sent;
    } else {
      var frames := HitFrames(times) + rest;
      assert frames[0] == Text(times[0], Some("ball_hit"));
      assert frames[1..] == HitFrames(times[1..]) + rest;
      var next := World(Hit(w.game), w.db, w.sent + [StateMessage(Hit(w.game))]);
      assert w.db.(players := WithPlayer(w.db.players, player)) == w.db;
      assert Step(w, player, frames[0], cooldownHours) == Next(next);
      assert Run(w, player, frames, cooldownHours) == Run(next, player, frames[1..], cooldownHours);
      HitsThen(next, player, times[1..], rest, cooldownHours);
      assert Hits(w.game, |times|) == Hits(next.game, |times| - 1);
      assert w.sent + HitMessages(w.game, |times|) == next.sent + HitMessages(next.game, |times| - 1);
    }
  }

  /** The game a session of n hits ends with, before the drop. */
  function SessionGame(w: World, player: UserId, start: Time, n: nat, cooldownHours: int): GameView
  {
    Hits(Start(Refresh(w.game, PlayerEnergy(w.db, player, start, cooldownHours))), n)
  }

  /** The frames of a whole session: game_start, one ball_hit per instant,
      ball_dropped. */
  function SessionFrames(start: Time, times: seq<Time>, drop: Time): seq<Frame>
  {
    [Text(start, Some("game_start"))] + HitFrames(times) + [Text(drop, Some("ball_dropped"))]
  }

  /** A session's frames are its game_start followed by the rest. */
  lemma SessionFramesSplit(start: Time, times: seq<Time>, drop: Time)
    ensures |SessionFrames(start, times, drop)| > 0
    ensures SessionFrames(start, times, drop)[0] == Text(start, Some("game_start"))
    ensures SessionFrames(start, times, drop)[1..] == HitFrames(times) + [Text(drop, Some("ball_dropped"))]
  {
    var first, rest := Text(start, Some("game_start")), HitFrames(times) + [Text(drop, Some("ball_dropped"))];
    assert SessionFrames(start, times, drop) == [first] + rest;
    assert ([first] + rest)[1..] == rest;
  }

  /** A whole session runs to the end of its frames and finishes the game
      its hits built.
      It is about a player who already has an energy
      row, as every player has after the first refresh of a connection
      (GetPlayerEnergy creates it). */
  lemma SessionRun(w: World, player: UserId, start: Time, times: seq<Time>, drop: Time, cooldownHours: int)
    requires !w.game.isPlaying && player in w.db.players
    requires PlayerEnergy(w.db, player, start, cooldownHours).remaining > 0
    ensures var started := Start(Refresh(w.game, PlayerEnergy(w.db, player, start, cooldownHours)));
      Run(w, player, SessionFrames(start, times, drop), cooldownHours)
      == (FinishGame(World(SessionGame(w, player, start, |times|, cooldownHours), w.db,
                           w.sent + [StateMessage(started)] + HitMessages(started, |times|)),
                     player, drop, cooldownHours),
          InputExhausted)
  {
    var dropFrame := Text(drop, Some("ball_dropped"));
    var frames := SessionFrames(start, times, drop);
    var started := Start(Refresh(w.game, PlayerEnergy(w.db, player, start, cooldownHours)));
    var w1 := World(started, w.db, w.sent + [StateMessage(started)]);
    SessionFramesSplit(start, times, drop);
    StartSteps(w, player, start, frames, cooldownHours);
    HitsThen(w1, player, times, [dropFrame], cooldownHours);
    var g := Hits(started, |times|);
    HitsCount(started, |times|);
    var w2 := World(g, w.db, w1.sent + HitMessages(started, |times|));
    DropFinishes(w2, player, drop, cooldownHours);
    calc {
      Run(w, player, frames, cooldownHours);
      Run(w1, player, HitFrames(times) + [dropFrame], cooldownHours);
      Run(w2, player, [dropFrame], cooldownHours);
      (FinishGame(w2, player, drop, cooldownHours), InputExhausted);
    }
  }

  /** A whole session: from an idle game with energy left, game_start, n
      hits and ball_dropped credit the player (and referrer) with exactly
      10n + n(n-1)/2 once, record exactly one energy use, and announce the
      final score.
      It is about a player who already has an energy
      row, as every player has after the first refresh of a connection
      (GetPlayerEnergy creates it). */
  lemma FullSession(w: World, player: UserId, start: Time, times: seq<Time>, drop: Time, cooldownHours: int)
    requires !w.game.isPlaying && player in w.db.players
    requires PlayerEnergy(w.db, player, start, cooldownHours).remaining > 0
    ensures var frames := SessionFrames(start, times, drop);
      var last := Run(w, player, frames, cooldownHours).0;
      && Run(w, player, frames, cooldownHours).1 == InputExhausted
      && !last.game.isPlaying
      && last.game.hitCounter == |times|
      && 2 * last.game.totalScore == 20 * |times| + |times| * (|times| - 1)
      && Credit(w.db.users, player, last.game.totalScore).Ok? == (player in w.db.users)
      && last.db.users == (if player in w.db.users then Credit(w.db.users, player, last.game.totalScore).value else w.db.users)
      && last.db.energyUses == RecordUse(w.db, player, drop, cooldownHours)
      && |last.sent| > 0
      && last.sent[|last.sent| - 1] == GameOver(last.game.totalScore, |times|, last.game.remainingEnergy, false)
  {
    var started := Start(Refresh(w.game, PlayerEnergy(w.db, player, start, cooldownHours)));
    SessionRun(w, player, start, times, drop, cooldownHours);
    HitsCount(started, |times|);
    ScoreClosedForm(|times|);
    var w2 := World(SessionGame(w, player, start, |times|, cooldownHours), w.db,
                    w.sent + [StateMessage(started)] + HitMessages(started, |times|));
    FinishGameWrites(w2, player, drop, cooldownHours);
  }

  /** ball_dropped during a game, as the last frame, finishes the game and
      ends the input. */
  lemma DropFinishes(w: World, player: UserId, drop: Time, cooldownHours: int)
    requires w.game.isPlaying && w.game.isReadyToPlay && player in w.db.players
    ensures Run(w, player, [Text(drop, Some("ball_dropped"))], cooldownHours)
         == (FinishGame(w, player, drop, cooldownHours), InputExhausted)
  {
    var dropFrame := Text(drop, Some("ball_dropped"));
    assert w.db.(players := WithPlayer(w.db.players, player)) == w.db;
    assert Step(w, player, dropFrame, cooldownHours) == Next(FinishGame(w, player, drop, cooldownHours));
    assert [dropFrame][1..] == [];
  }

  /** What handleGameOver leaves behind: the game stopped, the score
      credited when the player exists, one use recorded, game_over sent. */
  lemma FinishGameWrites(w: World, player: UserId, now: Time, cooldownHours: int)
    ensures var f := FinishGame(w, player, now, cooldownHours);
      && f.game == w.game.(isPlaying := false)
      && Credit(w.db.users, player, w.game.totalScore).Ok? == (player in w.db.users)
      && f.db.users == (if player in w.db.users then Credit(w.db.users, player, w.game.totalScore).value else w.db.users)
      && f.db.energyUses == RecordUse(w.db, player, now, cooldownHours)
      && f.sent == w.sent + [GameOver(w.game.totalScore, w.game.hitCounter, w.game.remainingEnergy, false)]
  {
    var credit := Credit(w.db.users, player, w.game.totalScore);
    var db := w.db.(users := if credit.Ok? then credit.value else w.db.users);
    assert UseNumber(db, player, now, cooldownHours) == UseNumber(w.db, player, now, cooldownHours);
  }

  /** game_start from an idle game with energy left starts the game, then
      the loop goes on with the remaining frames.
      It is about a player who already has an energy
      row, as every player has after the first refresh of a connection
      (GetPlayerEnergy creates it). */
  lemma StartSteps(w: World, player: UserId, start: Time, frames: seq<Frame>, cooldownHours: int)
    requires !w.game.isPlaying && player in w.db.players
    requires PlayerEnergy(w.db, player, start, cooldownHours).remaining > 0
    requires |frames| > 0 && frames[0] == Text(start, Some("game_start"))
    ensures var started := Start(Refresh(w.game, PlayerEnergy(w.db, player, start, cooldownHours)));
      && started.isPlaying && started.isReadyToPlay
      && started.hitCounter == 0 && started.totalScore == 0 && started.bonusPointReward == 0
      && Run(w, player, frames, cooldownHours)
         == Run(World(started, w.db, w.sent + [StateMessage(started)]), player, frames[1..], cooldownHours)
  {
    var started := Start(Refresh(w.game, PlayerEnergy(w.db, player, start, cooldownHours)));
    assert w.db.(players := WithPlayer(w.db.players, player)) == w.db;
    assert Step(w, player, frames[0], cooldownHours) == Next(World(started, w.db, w.sent + [StateMessage(started)]));
  }

  /** Out of energy, game_start, ball_hit and ball_dropped only report when
      the next energy comes (eight hours after the latest use), or end the
      loop when there is no use to report; the game is not started, scored
      or finished. */
  lemma OutOfEnergyOnlyReports(w: World, player: UserId, now: Time, kind: string, cooldownHours: int)
    requires NeedsEnergy(kind) && !w.game.isPlaying
    requires PlayerEnergy(w.db, player, now, cooldownHours).remaining <= 0
    ensures var s := Step(w, player, Text(now, Some(kind)), cooldownHours);
      && s.world.game == Refresh(w.game, PlayerEnergy(w.db, player, now, cooldownHours))
      && !s.world.game.isPlaying && !s.world.game.isReadyToPlay
      && s.world.db == w.db.(players := WithPlayer(w.db.players, player))
      && (s.Stop? <==> LatestUse(w.db.energyUses, player).None?)
      && (s.Stop? ==> s.reason == EnergyStatusFailed && s.world.sent == w.sent)
      && (s.Next? ==>
            s.world.sent == w.sent + [ErrorMessage("out of energy", LatestUse(w.db.energyUses, player).value + EnergyRechargeDelay)])
  {
  }

  /** Ready but not playing, ball_hit and ball_dropped do nothing and send
      nothing; an undecodable frame is skipped before the energy lookup. */
  lemma IdleMessagesAreQuiet(w: World, player: UserId, now: Time, kind: string, cooldownHours: int)
    requires kind == "ball_hit" || kind == "ball_dropped"
    requires !w.game.isPlaying
    requires PlayerEnergy(w.db, player, now, cooldownHours).remaining > 0
    ensures Step(w, player, Text(now, Some(kind)), cooldownHours)
         == Next(World(Refresh(w.game, PlayerEnergy(w.db, player, now, cooldownHours)),
                       w.db.(players := WithPlayer(w.db.players, player)), w.sent))
    ensures Step(w, player, Text(now, None), cooldownHours) == Next(w)
  {
  }

  /** game_start when ready begins a game with one energy fewer and zeroed
      counters; a second game_start while playing changes nothing. */
  lemma StartBeginsOnce(w: World, player: UserId, now: Time, later: Time, cooldownHours: int)
    requires !w.game.isPlaying
    requires PlayerEnergy(w.db, player, now, cooldownHours).remaining > 0
    ensures var e := PlayerEnergy(w.db, player, now, cooldownHours);
      var s := Step(w, player, Text(now, Some("game_start")), cooldownHours);
      && s.Next?
      && s.world.game.isPlaying && s.world.game.isReadyToPlay
      && s.world.game.remainingEnergy == e.remaining - 1
      && s.world.game.hitCounter == 0 && s.world.game.totalScore == 0
      && s.world.game.currentHitScore == 0 && s.world.game.bonusPointReward == 0
      && s.world.sent == w.sent + [StateMessage(s.world.game)]
      && s.world.db.users == w.db.users && s.world.db.energyUses == w.db.energyUses
      && Step(s.world, player, Text(later, Some("game_start")), cooldownHours)
         == Next(s.world.(db := s.world.db.(players := WithPlayer(s.world.db.players, player))))
  {
  }

  /** While playing the energy fields are not refreshed, whatever the store
      says; player_state reports the game's own figures. */
  lemma PlayingKeepsEnergy(w: World, player: UserId, now: Time, cooldownHours: int)
    requires w.game.isPlaying
    ensures var s := Step(w, player, Text(now, Some("player_state")), cooldownHours);
      && s == Next(World(w.game, w.db.(players := WithPlayer(w.db.players, player)),
                         w.sent + [PlayerState(w.game.totalEnergy, w.game.remainingEnergy)]))
  {
  }

  /** energy_recharge only acknowledges. */
  lemma RechargeOnlyAcknowledges(w: World, player: UserId, now: Time, cooldownHours: int)
    ensures var s := Step(w, player, Text(now, Some("energy_recharge")), cooldownHours);
      && s.Next?
      && s.world.sent == w.sent + [EnergyRecharge("success")]
      && s.world.db == w.db.(players := WithPlayer(w.db.players, player))
      && s.world.game == Refresh(w.game, PlayerEnergy(w.db, player, now, cooldownHours))
  {
  }
}
