/** The turn driver: a turn asks the strategy for scores over the flattened
    shot record, ranks the cells by score and shoots down the ranking until a
    shot lands on a cell not shot before; the evaluation loop plays turns for
    every player until nobody is still playing and keeps each player's
    number of shots to win. */
module AIPlay {
  import opened Grid
  import opened Ranking
  import opened GameRules
  import opened GameObjects
  import opened AIModels

  /** The scores a strategy gives the player's flattened shot record. */
  function TurnScores(ai: Strategy, shots: Matrix, noise: nat -> int): (s: seq<int>)
    requires IsBoard(shots) && Accepts(ai, CellCount) && KeepsShape(ai)
    ensures |s| == CellCount
  {
    FlattenLength(shots, Width, Height);
    PredictionShape(ai, Flatten(shots), noise);
    Prediction(ai, Flatten(shots), noise)
  }

  /** Cell index k decodes to a cell the record shows as not yet shot. */
  predicate Unshot(shots: Matrix, k: nat)
    requires IsBoard(shots) && k < CellCount
  {
    DecodeInBounds(k);
    shots[Decode(k).0][Decode(k).1] == 0
  }

  /** The first position at or after `from` whose cell is not yet shot. */
  function FirstUnshot(ranked: seq<nat>, shots: Matrix, from: nat): (p: nat)
    requires IsBoard(shots) && AllBelow(ranked, CellCount) && from <= |ranked|
    requires exists j :: from <= j < |ranked| && Unshot(shots, ranked[j])
    ensures from <= p < |ranked| && Unshot(shots, ranked[p])
    ensures forall q :: from <= q < p ==> !Unshot(shots, ranked[q])
    decreases |ranked| - from
  {
    if Unshot(shots, ranked[from]) then from else FirstUnshot(ranked, shots, from + 1)
  }

  /** While fewer than all cells are shot, the ranking of a turn holds an unshot cell. */
  lemma RankedUnshot(ranked: seq<nat>, scores: seq<int>, shots: Matrix)
    requires IsBoard(shots) && ShotCount(shots) < CellCount
    requires IsRanking(ranked, scores) && |scores| == CellCount
    ensures exists j :: 0 <= j < |ranked| && Unshot(shots, ranked[j])
  {
    var k := UnshotCellExists(shots);
    var j := RankingCovers(ranked, scores, k);
    assert Unshot(shots, ranked[j]);
  }

  /** The cell a turn lands on: the first cell of the ranking not shot before. */
  ghost function TurnCell(ai: Strategy, shots: Matrix, noise: nat -> int): (c: (nat, nat))
    requires IsBoard(shots) && ShotCount(shots) < CellCount
    requires Accepts(ai, CellCount) && KeepsShape(ai)
    ensures InBounds(c.0, c.1) && shots[c.0][c.1] == 0
  {
    var scores := TurnScores(ai, shots, noise);
    var ranked := Rank(scores);
    RankIsRanking(scores);
    RankedUnshot(ranked, scores, shots);
    var k := ranked[FirstUnshot(ranked, shots, 0)];
    DecodeInBounds(k);
    Decode(k)
  }

  /** Every cell ranked above the one a turn lands on had been shot already. */
  lemma TurnCellIsFirst(ai: Strategy, shots: Matrix, noise: nat -> int)
    requires IsBoard(shots) && ShotCount(shots) < CellCount
    requires Accepts(ai, CellCount) && KeepsShape(ai)
    ensures var ranked := Rank(TurnScores(ai, shots, noise));
            IsRanking(ranked, TurnScores(ai, shots, noise)) &&
            exists p :: 0 <= p < |ranked| && Decode(ranked[p]) == TurnCell(ai, shots, noise) &&
              forall q :: 0 <= q < p ==> !Unshot(shots, ranked[q])
  {
    var scores := TurnScores(ai, shots, noise);
    var ranked := Rank(scores);
    RankIsRanking(scores);
    RankedUnshot(ranked, scores, shots);
    var p := FirstUnshot(ranked, shots, 0);
    assert Decode(ranked[p]) == TurnCell(ai, shots, noise);
  }

  /** playerTurn: a player that is not still playing is left as it is; otherwise
      exactly the turn's cell is shot, which raises the shot count by one. */
  method PlayerTurn(player: Player, playerAI: Strategy, noise: nat -> int)
    requires player.Valid() && Accepts(playerAI, CellCount) && KeepsShape(playerAI)
    modifies player.Repr
    ensures player.Valid()
    ensures !old(Playing(player.Fleet, player.Shots)) ==>
              player.Fleet == old(player.Fleet) && player.Shots == old(player.Shots)
    ensures old(Playing(player.Fleet, player.Shots)) ==>
              var c := old(TurnCell(playerAI, player.Shots, noise));
              player.Fleet == ShootFleet(old(player.Fleet), c.0, c.1) &&
              player.Shots == Resolve(old(player.Shots), old(player.Fleet), c.0, c.1) &&
              ShotCount(player.Shots) == old(ShotCount(player.Shots)) + 1
  {
    var still := player.StillPlaying();
    if !still {
      return;
    }
    var shotMatrix := player.GetShotMatrix();
    var df := Flat(shotMatrix);
    FlatMirror(shotMatrix, player.Shots);
    FlattenLength(player.Shots, Width, Height);
    var outputs := Predict(playerAI, df, noise);
    var rankedList := Rank(outputs);
    RankIsRanking(outputs);
    ghost var shots := player.Shots;
    assert outputs == TurnScores(playerAI, shots, noise);
    RankedUnshot(rankedList, outputs, shots);
    ghost var p := FirstUnshot(rankedList, shots, 0);
    ShotCountStep(player.Fleet, shots, Decode(rankedList[p]).0, Decode(rankedList[p]).1);
    ShootDown(player, rankedList, p);
  }

  /** Walks the ranking, shooting at each decoded cell, and stops after the
      first shot that lands on a new cell, which is the first unshot cell p. */
  method ShootDown(player: Player, rankedList: seq<nat>, ghost p: nat)
    requires player.Valid() && AllBelow(rankedList, CellCount) && p < |rankedList|
    requires Unshot(player.Shots, rankedList[p])
    requires forall q :: 0 <= q < p ==> !Unshot(player.Shots, rankedList[q])
    modifies player.Repr
    ensures player.Valid()
    ensures player.Fleet == ShootFleet(old(player.Fleet), Decode(rankedList[p]).0, Decode(rankedList[p]).1)
    ensures player.Shots == Resolve(old(player.Shots), old(player.Fleet), Decode(rankedList[p]).0, Decode(rankedList[p]).1)
  {
    ghost var fleet, shots := player.Fleet, player.Shots;
    var i := 0;
    while i < |rankedList|
      invariant i <= p
      invariant player.Valid() && player.Fleet == fleet && player.Shots == shots
      decreases |rankedList| - i
    {
      var shotIndex := rankedList[i];
      var x_pos := shotIndex / Width;
      var y_pos := shotIndex % Height;
      DecodeInBounds(shotIndex);
      var successful, alreadyShot := player.ShootAt(x_pos, y_pos);
      if alreadyShot == false {
        break;
      }
      RepeatShotChangesNothing(fleet, shots, x_pos, y_pos);
      i := i + 1;
    }
  }

  /** Player i has stopped playing exactly when its entry holds its shot count;
      while it plays the entry is still 0. */
  ghost predicate Recorded(game: Game, timeToWin: array<int>)
    requires game.Valid() && timeToWin.Length == |game.players|
    reads game.Repr, timeToWin
  {
    forall i :: 0 <= i < |game.players| ==>
      timeToWin[i] == if Playing(game.players[i].Fleet, game.players[i].Shots) then 0
                      else ShotCount(game.players[i].Shots)
  }

  /** One round of the evaluation loop: every player takes a turn in order,
      and each player that has stopped playing has its shot count recorded. */
  method PlayRound(game: Game, playerAI: Strategy, noise: nat -> nat -> int, timeToWin: array<int>, ghost round: nat)
    requires game.Valid() && Accepts(playerAI, CellCount) && KeepsShape(playerAI)
    requires timeToWin !in game.Repr && timeToWin.Length == |game.players|
    requires round >= 1 && Recorded(game, timeToWin) && Progress(game, round - 1)
    modifies game.Repr, timeToWin
    ensures game.Valid() && Recorded(game, timeToWin) && Progress(game, round)
    ensures forall i :: 0 <= i < |game.players| ==> TurnTaken(old(game.players[i].Fleet), old(game.players[i].Shots),
                                                               game.players[i].Fleet, game.players[i].Shots)
    ensures forall i :: 0 <= i < |game.players| && !old(Playing(game.players[i].Fleet, game.players[i].Shots)) ==>
              timeToWin[i] == old(timeToWin[i])
  {
    var player_id := 0;
    while player_id < |game.players|
      invariant 0 <= player_id <= |game.players|
      invariant game.Valid() && Recorded(game, timeToWin)
      invariant forall i :: 0 <= i < player_id ==> TurnTaken(old(game.players[i].Fleet), old(game.players[i].Shots),
                                                             game.players[i].Fleet, game.players[i].Shots)
      invariant forall i :: player_id <= i < |game.players| ==>
                  game.players[i].Fleet == old(game.players[i].Fleet) && game.players[i].Shots == old(game.players[i].Shots)
    {
      TakeTurn(game, player_id, playerAI, noise(player_id), timeToWin);
      player_id := player_id + 1;
    }
  }

  /** What one turn does to a player: a playing one gains exactly one shot, a
      stopped one is left as it is. */
  ghost predicate TurnTaken(fleet: seq<ShipView>, shots: Matrix, fleet': seq<ShipView>, shots': Matrix) {
    if Playing(fleet, shots) then ShotCount(shots') == ShotCount(shots) + 1
    else fleet' == fleet && shots' == shots
  }

  /** One player's part of a round: the turn, then recording the player's
      shot count when the player has stopped playing. */
  method TakeTurn(game: Game, player_id: nat, playerAI: Strategy, noise: nat -> int, timeToWin: array<int>)
    requires game.Valid() && player_id < |game.players| && Accepts(playerAI, CellCount) && KeepsShape(playerAI)
    requires timeToWin !in game.Repr && timeToWin.Length == |game.players|
    requires Recorded(game, timeToWin)
    modifies game.players[player_id].Repr, timeToWin
    ensures game.Valid() && Recorded(game, timeToWin)
    ensures TurnTaken(old(game.players[player_id].Fleet), old(game.players[player_id].Shots),
                      game.players[player_id].Fleet, game.players[player_id].Shots)
    ensures forall i :: 0 <= i < |game.players| && i != player_id ==>
              game.players[i].Fleet == old(game.players[i].Fleet) && game.players[i].Shots == old(game.players[i].Shots)
  {
    GameTurn(game, player_id, playerAI, noise);
    RecordWin(game, player_id, timeToWin);
  }

  /** Records the shot count of a player that has stopped playing, and leaves
      the table alone for one still playing. */
  method RecordWin(game: Game, player_id: nat, timeToWin: array<int>)
    requires game.Valid() && player_id < |game.players|
    requires timeToWin !in game.Repr && timeToWin.Length == |game.players|
    modifies timeToWin
    ensures timeToWin[player_id] ==
              if Playing(game.players[player_id].Fleet, game.players[player_id].Shots) then old(timeToWin[player_id])
              else ShotCount(game.players[player_id].Shots)
    ensures forall i :: 0 <= i < timeToWin.Length && i != player_id ==> timeToWin[i] == old(timeToWin[i])
  {
    var player := game.players[player_id];
    var still := player.StillPlaying();
    if !still {
      timeToWin[player_id] := player.GetNumberOfShotsFired();
    }
  }

  /** playerTurn(player, playerAI) on one player of the game. */
  method GameTurn(game: Game, player_id: nat, playerAI: Strategy, noise: nat -> int)
    requires game.Valid() && player_id < |game.players| && Accepts(playerAI, CellCount) && KeepsShape(playerAI)
    modifies game.players[player_id].Repr
    ensures game.Valid()
    ensures TurnTaken(old(game.players[player_id].Fleet), old(game.players[player_id].Shots),
                      game.players[player_id].Fleet, game.players[player_id].Shots)
    ensures forall i :: 0 <= i < |game.players| && i != player_id ==>
              game.players[i].Fleet == old(game.players[i].Fleet) && game.players[i].Shots == old(game.players[i].Shots)
  {
    PlayerTurn(game.players[player_id], playerAI, noise);
  }

  /** Every player still playing has fired at least round - 1 shots. */
  ghost predicate Progress(game: Game, round: nat)
    requires game.Valid()
    reads game.Repr
  {
    forall i :: 0 <= i < |game.players| && Playing(game.players[i].Fleet, game.players[i].Shots) ==>
      ShotCount(game.players[i].Shots) >= round - 1
  }

  /** playersStillPlaying. */
  ghost predicate AnyPlaying(game: Game)
    requires game.Valid()
    reads game.Repr
  {
    exists i :: 0 <= i < |game.players| && Playing(game.players[i].Fleet, game.players[i].Shots)
  }

  /** A player still playing has fired fewer than CellCount shots, so while
      anyone plays the round counter is at most CellCount. */
  lemma RoundBound(game: Game, round: nat)
    requires game.Valid() && Progress(game, round) && AnyPlaying(game)
    ensures round <= CellCount
  {
  }

  /** Sets up an evaluation: a new game of the given number of players and a
      table holding zero shots for each of them. */
  method StartEvaluation(numberOfPlayers: nat, draws: seq<seq<seq<Draw>>>) returns (game: Game, timeToWin: array<int>)
    requires |draws| == numberOfPlayers
    requires forall i :: 0 <= i < numberOfPlayers ==> FleetDraws(draws[i])
    ensures game.Valid() && fresh(game.Repr) && |game.players| == numberOfPlayers
    ensures fresh(timeToWin) && timeToWin !in game.Repr && timeToWin.Length == numberOfPlayers
    ensures Recorded(game, timeToWin) && Progress(game, 1)
    ensures forall i :: 0 <= i < numberOfPlayers ==>
              Fresh(game.players[i].Fleet, game.players[i].Shots) && PlacedBy(game.players[i].Fleet, draws[i]) &&
              ShotCount(game.players[i].Shots) == 0 && timeToWin[i] == 0
  {
    game := new Game(numberOfPlayers, draws);
    timeToWin := new int[numberOfPlayers](i => 0);
    forall i | 0 <= i < numberOfPlayers {
      FreshNoShots(game.players[i].Fleet, game.players[i].Shots);
    }
  }

  /** evaluationGameLoop: play rounds until no player is still playing. It
      returns the game, timeToWin, and the round counter, which starts at 1 and
      is raised at the start of every round. */
  method EvaluationGameLoop(playerAI: Strategy, numberOfPlayers: nat, draws: seq<seq<seq<Draw>>>,
                            noise: nat -> nat -> nat -> int)
    returns (game: Game, timeToWin: array<int>, round: nat)
    requires Accepts(playerAI, CellCount) && KeepsShape(playerAI)
    requires |draws| == numberOfPlayers
    requires forall i :: 0 <= i < numberOfPlayers ==> FleetDraws(draws[i])
    ensures game.Valid() && |game.players| == numberOfPlayers && timeToWin.Length == numberOfPlayers
    ensures 1 <= round <= CellCount + 1
    ensures forall i :: 0 <= i < numberOfPlayers ==>
              !Playing(game.players[i].Fleet, game.players[i].Shots) &&
              timeToWin[i] == ShotCount(game.players[i].Shots) <= CellCount
  {
    game, timeToWin := StartEvaluation(numberOfPlayers, draws);
    round := 1;
    var playing := game.PlayersStillPlaying();
    while playing
      invariant game.Valid() && fresh(game.Repr) && |game.players| == numberOfPlayers
      invariant fresh(timeToWin) && timeToWin !in game.Repr && timeToWin.Length == numberOfPlayers
      invariant 1 <= round <= CellCount + 1
      invariant Recorded(game, timeToWin) && Progress(game, round)
      invariant playing <==> AnyPlaying(game)
      decreases CellCount + 1 - round
    {
      RoundBound(game, round);
      round := round + 1;
      playing := NextRound(game, playerAI, noise(round), timeToWin, round);
    }
    Finished(game, timeToWin);
  }

  /** The body of the game loop after round += 1: a round of turns, then
      playersStillPlaying. */
  method NextRound(game: Game, playerAI: Strategy, noise: nat -> nat -> int, timeToWin: array<int>, ghost round: nat)
    returns (playing: bool)
    requires game.Valid() && Accepts(playerAI, CellCount) && KeepsShape(playerAI)
    requires timeToWin !in game.Repr && timeToWin.Length == |game.players|
    requires round >= 1 && Recorded(game, timeToWin) && Progress(game, round - 1)
    modifies game.Repr, timeToWin
    ensures game.Valid() && Recorded(game, timeToWin) && Progress(game, round)
    ensures playing <==> AnyPlaying(game)
  {
    PlayRound(game, playerAI, noise, timeToWin, round);
    playing := game.PlayersStillPlaying();
  }

  /** Once nobody plays, timeToWin holds every player's final shot count. */
  lemma Finished(game: Game, timeToWin: array<int>)
    requires game.Valid() && timeToWin.Length == |game.players|
    requires Recorded(game, timeToWin) && !AnyPlaying(game)
    ensures forall i :: 0 <= i < |game.players| ==>
              !Playing(game.players[i].Fleet, game.players[i].Shots) &&
              timeToWin[i] == ShotCount(game.players[i].Shots) <= CellCount
  {
    forall i | 0 <= i < |game.players|
      ensures ShotCount(game.players[i].Shots) <= CellCount
    {
      ShotCountBound(game.players[i].Shots);
    }
  }
}
