# Battleships, modelled in Dafny

A model of a one-sided "sink the fleet" simulator on a 10 x 10 board.

- **Game engine.** A `Ship` places itself by rejection sampling. It lays a run of `size` cells along a column or row of the board, and accepts the placement only when the run was not cut off at the edge. A `Player` owns the fleet 3, 5, 4, 2, 2 and an integer shot record (0 not shot, 1 hit, -1 miss). A `Game` owns its players.
- **Targeting strategies.** `SeekAI` scores unshot cells next to a recorded hit. `RandomSeekAI` and `SmartSeekAI` fall back to random scores, or to a learned guess model, when no such cell exists. `RandomAI` gives random scores.
- **Turn driver.** `playerTurn` ranks the cells by score and shoots down the ranking until it reaches a cell not shot before. `evaluationGameLoop` plays rounds until no player is still playing and records each player's shots to win.
- **Training data.** A 0/1 shot overlay and a player's ship mask combine into an observed board of -1/0/+1. Each record is the ship bits followed by the observed board. Records are split into training and test parts. Predicted score vectors are cut into 0/1 guesses at their 17th-highest score.

## Modules

- `grid.dfy` (`Grid`): boards as `seq<seq<int>>`, row-major flattening and reshaping, the flat index codec, counting and summing, and the link between `array2` boards and their ghost mirrors.
- `ranking.dfy` (`Ranking`): `np.flip(np.argsort(scores))` modelled as an insertion sort on indices. It is proved to be a permutation of the indices along non-increasing scores.
- `game_rules.dfy` (`GameRules`): the value-level rules of the engine, stated over ghost views of ships and shot records:
  - placement;
  - a shot against one ship and against the whole fleet;
  - the consistency invariant of the shot record;
  - shot counting;
  - the end-of-game predicate;
  - the replay of any sequence of shots.
- `game_objects.dfy` (`GameObjects`): the classes `Ship`, `Player` and `Game`.
  - Their arrays are updated in place.
  - Each method is specified against `GameRules`.
- `ai_models.dfy` (`AIModels`):
  - the strategies as a datatype;
  - `seek` as nested loops over an `array2`;
  - the `predict` dispatch.
- `ai_play.dfy` (`AIPlay`): `playerTurn` and `evaluationGameLoop`.
- `create_model.dfy` (`CreateModel`): the observed board, the record layout, `generateMaps`, `splitData` and `correctPredictions`.

Randomness is supplied by the caller:
- Placement attempts are a sequence of draws, each an orientation and a start cell. Some draw must fit.
- The random score vectors are streams `nat -> int`, one per round and player.
- The shot overlays of `generateMaps` are given as boards. The lemmas about the observed board assume 0/1 entries, which is what the thresholded draw produces.
- The guess model of `SmartSeekAI` is a function from a record to a score vector, and is required to keep the length.

Scores are integers. Only their order matters: ranking and thresholding only compare scores.

The model follows the code on these points:
- The shot count is the number of nonzero cells of the shot record. So a repeat shot does not count again.
- The fleet is built in the order 3, 5, 4, 2, 2.
- A flat index is decoded with `/ mapSize["x"]` and `% mapSize["y"]`. This inverts row-major flattening only because both sizes are 10 (`Grid.DecodeEncode`).

## Model

| member | source | states |
|---|---|---|
| Grid.Decode | src/ai-play.py:42-43 | the decoded column is always below the height, and the decoded row is below the width for every index below 100 |
| Grid.DecodeInBounds | src/ai-play.py:42-43 | every flat index below 100 decodes to a cell on the board |
| Grid.DecodeEncode | src/ai-play.py:42-43 | decoding (k / 10, k % 10) inverts the row-major index x * 10 + y of every cell |
| Ranking.Rank | src/ai-play.py:29 | the ranked list holds only indices of the score vector, and each index exactly once (its multiset is that of 0 .. n - 1) |
| Ranking.RankIsRanking | src/ai-play.py:29 | the ranked list holds every cell index exactly once (a permutation) and the scores read along it never increase |
| Ranking.RankingDistinct | src/ai-play.py:29 | a ranking is as long as the score vector and has no repeated index |
| Ranking.RankingCovers | src/ai-play.py:29 | every cell index has a position in the ranking |
| GameRules.RunMatrixAt | GameObjects.py:98-108 | the laid ship matrix is 1 exactly on the cells of the run from the start cell along the chosen axis, cut off at the edge, and 0 elsewhere |
| GameRules.RunSum | GameObjects.py:98-111 | the sum of the ship matrix is the length of the part of the run on the board, min(start + size, 10) - start along the chosen axis |
| GameRules.PlacementAccepted | GameObjects.py:111 | the sum check accepts a placement iff start + size <= 10 along the chosen axis |
| GameRules.PlacementCells | GameObjects.py:98-111 | an accepted placement covers exactly the cells start + t for t < size along one row or column, all on the board |
| GameRules.AcceptedShipOk | GameObjects.py:96-111 | an accepted placement with a zero hit matrix is a well-formed, unhit ship of that size |
| GameRules.FirstFit | GameObjects.py:111-112 | the retry settles on the first draw that fits; every earlier draw was cut off |
| GameRules.AliveIffFewerHits | GameObjects.py:122-123 | a well-formed ship has at most size hit cells, and is alive iff it has fewer than size |
| GameRules.ShootShip | GameObjects.py:114-120 | a shot keeps the ship's size and cells and leaves a well-shaped hit matrix |
| GameRules.ShootShipEffect | GameObjects.py:114-120 | a shot marks the target as hit iff it is a ship cell; no other hit cell and no ship cell changes; a repeat shot changes nothing; hits stay within the ship's cells |
| GameRules.SunkStaysSunk | GameObjects.py:117-123 | once a ship is not alive, no shot makes it alive again |
| GameRules.CoveredStep | GameObjects.py:67-71 | the cells covered by the first n + 1 ships are those covered by the first n or by ship n |
| GameRules.ShootFleetCells | GameObjects.py:47-49 | shooting the fleet keeps every ship's cells and size, so the covered cells stay the same |
| GameRules.Resolve | GameObjects.py:44-51 | the record after a shot marks the target as shot, 1 exactly when some ship covers it and -1 otherwise, and keeps every other cell |
| GameRules.ShotKeepsConsistent | GameObjects.py:44-51 | after a shot, a record cell is 0 iff never shot, 1 iff shot and covered, -1 iff shot and not covered, and each ship's hits are its shot cells |
| GameRules.RepeatShotChangesNothing | GameObjects.py:44-51 | a shot at an already-shot cell leaves the fleet and the shot record unchanged |
| GameRules.ShotCount | GameObjects.py:34-35 | the number of shot cells never exceeds the number of record cells |
| GameRules.ShotCountBound | GameObjects.py:55-58 | hits <= shots fired <= 100, so the "Game over" branch can never be taken |
| GameRules.ShotCountStep | GameObjects.py:44-51 | a shot raises the shot count by one if the cell was unshot, and leaves it unchanged otherwise |
| GameRules.UnshotCellExists | GameObjects.py:54-59 | with fewer than 100 shots some cell is still unshot |
| GameRules.AliveCount | GameObjects.py:61-65 | the number of ships alive never exceeds the fleet size |
| GameRules.AliveCountZero | GameObjects.py:61-65 | no ship is alive iff the alive count is 0; the count is at most the fleet size |
| GameRules.AliveCountShoot | GameObjects.py:61-65 | a shot never raises the number of ships alive |
| GameRules.FreshIsPlaying | GameObjects.py:26-28 | a new player with ships of positive size is still playing |
| GameRules.StoppedStaysStopped | GameObjects.py:54-59 | a player who has stopped playing stays stopped after any shot |
| GameRules.FreshNoShots | GameObjects.py:28 | a new shot record has shot count 0 |
| GameRules.FreshConsistent | GameObjects.py:27-28 | a new player, unhit and with an all-zero record, satisfies the consistency invariant |
| GameRules.ReplayCovered | GameObjects.py:37-52 | after any sequence of shots every ship keeps its cells, so the covered cells are the initial ones |
| GameRules.ReplayConsistent | GameObjects.py:37-52 | the consistency invariant holds after any sequence of shots from a fresh player |
| GameRules.ReplayRecord | GameObjects.py:44-51 | after any sequence of shots a record cell is 0 iff never targeted, 1 iff targeted and covered, -1 iff targeted and not covered |
| GameRules.ReplayCount | GameObjects.py:34-35 | after any sequence of shots the shot count is the number of distinct cells targeted |
| GameRules.ReplayUnshot | GameObjects.py:44-45 | a cell of the replayed record is 0 iff it is not among the targets |
| GameObjects.Ship.constructor | GameObjects.py:78-80 | a new ship has the given size, is placed by the first draw that fits and starts with no hits |
| GameObjects.Ship.Generate | GameObjects.py:84-89 | one attempt takes the draw's orientation and clears the ship matrix, then places the ship by the first draw that fits, unhit |
| GameObjects.Ship.GeneratePoints | GameObjects.py:91-112 | it lays the run and clears the hit matrix; it keeps the run when its sum is size, and otherwise retries with the remaining draws |
| GameObjects.Ship.Keep | GameObjects.py:111-112 | an accepted run is kept: the ship is valid, its placement is the draw, its cells are the run matrix and it has no hits |
| GameObjects.Ship.LayRun | GameObjects.py:98-108 | the ship matrix becomes the run matrix of the start cell and orientation |
| GameObjects.Ship.ShootAt | GameObjects.py:114-120 | it returns true iff the target is a ship cell, and the ship's new state is the shot view; the matrix of hits changes only at the target |
| GameObjects.Ship.IsAlive | GameObjects.py:122-123 | alive iff fewer than size cells are hit |
| GameObjects.NewFleet | GameObjects.py:27 | it makes five distinct valid ships of sizes 3, 5, 4, 2, 2 in that order, each placed by its first fitting draw and unhit |
| GameObjects.AddShip | GameObjects.py:27 | it appends one new valid ship of the given size and keeps the earlier ships |
| GameObjects.Player.constructor | GameObjects.py:26-28 | a new player has the fleet above and an all-zero shot record, which is consistent |
| GameObjects.Player.GetHits | GameObjects.py:30-32 | the number of record cells equal to 1, at most the shot count |
| GameObjects.Player.GetNumberOfShotsFired | GameObjects.py:34-35 | the number of nonzero record cells, at most 100 |
| GameObjects.Player.GetShotMatrix | GameObjects.py:73-74 | an array the player owns (no copy) whose cells are the shot record |
| GameObjects.Player.ShootShips | GameObjects.py:47-49 | every ship is shot, overlapping ones included; the result is true iff some ship covers the target |
| GameObjects.Player.ShootOne | GameObjects.py:47-49 | ship i alone takes the shot and becomes its shot view; the result is true iff the target is one of its cells |
| GameObjects.Player.ShootAt | GameObjects.py:37-52 | alreadyShot iff the target cell was nonzero; the hit flag is true iff some ship covers the target; the fleet is shot; the target cell becomes 1 or -1; no other cell changes |
| GameObjects.Player.ShipsAlive | GameObjects.py:61-65 | the number of ships still alive |
| GameObjects.Player.StillPlaying | GameObjects.py:54-59 | still playing iff some ship is alive and fewer than 100 cells are shot |
| GameObjects.Player.GetShipMatrix | GameObjects.py:67-71 | a cell is true iff at least one ship lies on it, overlaps included |
| GameObjects.Game.constructor | GameObjects.py:11-14 | that many new players, each with its own objects, each consistent and unshot, and each ship of player i placed by the first fitting draw of its own attempts in draws[i] |
| GameObjects.Game.PlayersStillPlaying | GameObjects.py:18-22 | true iff some player is still playing |
| AIModels.MarkAround | src/AIModels.py:27-39 | it sets to 1 exactly the on-board orthogonal neighbours of the cell and leaves every other cell unchanged; every index it uses lies on the board |
| AIModels.MarkNeighbours | src/AIModels.py:22-39 | a cell of the result is 1 iff some orthogonal neighbour on the board holds exactly 1, and 0 otherwise |
| AIModels.SeekScores | src/AIModels.py:17-44 | the seek scores of a w x h record have w * h entries |
| AIModels.Seek | src/AIModels.py:17-44 | the row that seek computes equals the score vector SeekScores |
| AIModels.SeekBits | src/AIModels.py:17-44 | the seek row has width * height entries, each 0 or 1 |
| AIModels.SeekCell | src/AIModels.py:25-42 | a cell scores 1 iff its input value is 0 and some orthogonal neighbour on the board holds exactly 1 |
| AIModels.SeekSkipsShotCells | src/AIModels.py:41-42 | a cell already shot, as hit or as miss, scores 0 even next to a hit |
| AIModels.SeekWithoutHits | src/AIModels.py:25-42 | with no input value equal to 1, every score is 0 |
| AIModels.SeekSumZero | src/AIModels.py:41-53 | the seek scores sum to at most 0 iff no unshot cell is next to a hit |
| AIModels.SeekExample | src/AIModels.py:25-42 | on a 5 x 5 input with a single 1 at (2, 2) the ones are exactly at (1, 2), (3, 2), (2, 1) and (2, 3) |
| AIModels.NeighboursAgree | src/AIModels.py:18-39 | being next to a hit on the reshaped board is the same as on the flat record |
| AIModels.RandomScores | src/AIModels.py:5-7 | random scores have the input's length |
| AIModels.Prediction | src/AIModels.py:5-70 | every strategy whose guess model keeps the length answers with one score per record entry |
| AIModels.Predict | src/AIModels.py:5-70 | the method's output is the strategy's prediction: random scores, the seek scores, or the seek scores with the random or guess fallback when their sum is at most 0 |
| AIModels.RandomSeekFallback | src/AIModels.py:50-56 | RandomSeekAI returns the seek scores unchanged while some unshot cell is next to a hit, and random scores of the input's length otherwise |
| AIModels.SmartSeekFallback | src/AIModels.py:64-70 | SmartSeekAI returns the seek scores while some unshot cell is next to a hit, and otherwise exactly the guess model's scores of the same record |
| AIPlay.TurnScores | src/ai-play.py:22-23 | the scores for the flattened shot record cover all 100 cells |
| AIPlay.FirstUnshot | src/ai-play.py:41-51 | the position of the first unshot cell in the ranking: it is unshot and every earlier ranked cell was already shot |
| AIPlay.RankedUnshot | src/ai-play.py:41-51 | while fewer than 100 cells are shot, some ranked cell is unshot, so the loop always finds one |
| AIPlay.TurnCell | src/ai-play.py:41-51 | the cell a turn shoots is on the board and was unshot |
| AIPlay.TurnCellIsFirst | src/ai-play.py:41-51 | the turn's cell is the first unshot cell of the ranking; every cell ranked before it was already shot |
| AIPlay.ShootDown | src/ai-play.py:41-51 | walking the ranking re-shoots the already-shot cells without changing anything and stops after shooting the first unshot cell |
| AIPlay.PlayerTurn | src/ai-play.py:14-51 | a player no longer playing is left unchanged; otherwise exactly the turn's cell is shot, the fleet and record are updated by that shot, and the shot count rises by exactly 1 |
| AIPlay.GameTurn | src/ai-play.py:93-94 | one player takes a turn and every other player is unchanged |
| AIPlay.TakeTurn | src/ai-play.py:93-98 | after the turn every timeToWin entry is still recorded: the shot count for a player no longer playing, 0 for one still playing; the player takes its turn and the other players are unchanged |
| AIPlay.RecordWin | src/ai-play.py:96-98 | a stopped player's timeToWin entry becomes its shot count, a playing player's entry is unchanged, and no other entry changes |
| AIPlay.PlayRound | src/ai-play.py:93-98 | every player takes one turn; each player still playing gains exactly one shot, a stopped one is unchanged; timeToWin stays recorded, and the entry of a player that had already stopped is not changed |
| AIPlay.StartEvaluation | src/ai-play.py:82-84 | new players, each unhit with an all-zero record and shot count 0 and each ship placed by its first fitting draw; every timeToWin entry is 0 |
| AIPlay.NextRound | src/ai-play.py:89-98 | one round is played and the loop condition is recomputed |
| AIPlay.RoundBound | src/ai-play.py:89-94 | while someone is still playing, the round number is at most 100, since each round raises every remaining player's bounded shot count |
| AIPlay.EvaluationGameLoop | src/ai-play.py:80-98 | the loop ends within 100 rounds; afterwards no player is still playing and timeToWin[i] is player i's shot count, at most 100 |
| AIPlay.Finished | src/ai-play.py:96-98 | when nobody plays any more, every timeToWin entry is that player's shot count and at most 100 |
| CreateModel.ObservedMeaning | create-model.py:43-47 | an observed cell is +1 iff shot and on a ship, -1 iff shot and off every ship, and 0 iff not shot |
| CreateModel.ObservedValues | create-model.py:43-47 | the observed board holds only -1, 0 and 1 |
| CreateModel.RecordLayout | create-model.py:59 | a record has 200 entries: ship bit (x, y) at x * 10 + y and observed cell (x, y) at 100 + x * 10 + y |
| CreateModel.TrueShips | create-model.py:33 | the integer ship matrix is 1 exactly on the cells some ship covers |
| CreateModel.ObserveAll | create-model.py:28-47 | for every player, in order, the integer ship mask of its fleet and the observed board under its overlay |
| CreateModel.Concatenate | create-model.py:55-60 | one record per player, in order, each the flattened ship mask followed by the flattened observed board |
| CreateModel.GenerateMaps | create-model.py:13-62 | one new, unshot player per record, its ships placed by the first fitting draws of draws[i]; record i is player i's ship mask followed by its observed board under overlay i |
| CreateModel.TrainCount | create-model.py:66-67 | the training row count int(0.8 * n) never exceeds n |
| CreateModel.SplitData | create-model.py:65-73 | the training inputs and labels both have int(0.8 * n) rows, and the test inputs and labels the remaining n - int(0.8 * n) |
| CreateModel.HeadTail | create-model.py:70-71 | the first 100 columns and the rest concatenate back to the row |
| CreateModel.SplitPartition | create-model.py:65-73 | the training rows are the first int(0.8 * n) rows and the test rows the rest, in order; each row splits into Y, its first 100 columns, and X, the rest |
| CreateModel.SplitRecords | create-model.py:69-73 | on records, Y is the ship mask and X the observed board, in the training and test parts alike |
| CreateModel.CorrectPredictions | create-model.py:99-108 | one corrected row per prediction, in order |
| CreateModel.TopScore | create-model.py:104-105 | the cut-off score is one of the prediction's own scores |
| CreateModel.Corrected | create-model.py:106 | a corrected row has the prediction's length and holds only 0 and 1 |
| CreateModel.CorrectedRow | create-model.py:104-106 | a corrected row keeps its length and holds only 0 and 1; at least 17 cells are 1; every 1-cell scores at least as high as every 0-cell |
| CreateModel.AboveTopFew | create-model.py:104-105 | at most 16 cells score strictly above the cut, so the cut is the 17th-highest score |

## Left out

- Plotting, console output, the command line and the module-level script code of every file. The root `ai-play.py` is not part of this model: its selection loops repeat `src/ai-play.py` and are mixed with plotting.
- `demonstrationGameLoop` (src/ai-play.py:69-77) is not modelled. It is `evaluationGameLoop` for one player with drawing.
- TensorFlow and scikit-learn (`buildModel`, `trainModel`, `modelPredictions`, `evaluatePredictions`, loading and saving models) are not modelled. They are foreign library calls. The learned guess model is an arbitrary function that keeps the length.
- Random choices (`random.choice`, `random.randint`, `np.random.random`, `np.random.normal`) are parameters. Which values the generators produce is not modelled, and the Gaussian overlay is given as a 0/1 board.
- `Ship.generate`'s unbounded retry is bounded by the draw sequence, which must contain a draw that fits. A run of draws that never fits is outside the model.
- `directionOfMovement` (GameObjects.py:86) is never read and is not modelled.
- Floating-point scores are modelled as integers. Ranking and thresholding only compare scores.
- `Ship.generate` reallocates `shipMatrix` and `isHitPoints` with `np.zeros`. The model clears the same arrays in place, which no caller can tell apart since no one holds them.
- `Player.__init__` builds the fleet from a five-element list literal. The model builds the same five ships in the same order in a loop.
- `SeekAI.seek` returns a 1 x N array and `RandomAI.predict` an array of the input's 1 x N shape, and `playerTurn` takes row `[0]`. The model returns the row directly.
- `evaluationGameLoop` prints rounds and the model returns nothing of that. Instead the model returns the game, `timeToWin` and the final round number so that their final state can be stated.
- AIModels.Seek: `successfulHitsMap` and `missedShotsMap` are 0/1, so `alreadyShotMap` is nonzero exactly where the input is nonzero. The model masks with "input is 0" directly.
- AIPlay.PlayerTurn: the order of tied scores in `np.argsort` is not fixed by numpy. The model ranks ties by descending index, and everything proved about the turn relies only on the ranking being a permutation with non-increasing scores.
- CreateModel.TrainCount: `int(0.8 * n)` is modelled as floor(4n / 5), and row counts of 2^50 or more are outside the model. The double nearest 0.8 exceeds 4/5 by exactly 1 / (5 * 2^52), so for n below 2^50 the exact product lies above 4n/5 by less than 0.05, and rounding it to a double moves it by at most half a unit in the last place, at most 2^-4 since the product is below 2^50. The fractional part of 4n/5 is 0, 0.2, 0.4, 0.6 or 0.8, so landing on or past the next whole number needs a rise of at least 0.2, and rounding never goes below a whole number the exact product is above. For every n below 2^50 the rounded product therefore truncates to exactly floor(4n/5).
- AIModels.Predict: requires a record of exactly mapSizeX * mapSizeY entries for the seek strategies (`Accepts`). For any other length numpy's reshape in `SeekAI.seek` raises ValueError; that error path is not modelled. Every caller passes the 100-cell record of a 10 x 10 board.
- CreateModel.CorrectPredictions: requires every prediction to have more than 16 entries. For a shorter one, reading position 16 of the sorted scores raises IndexError; that error path is not modelled. Every prediction row has 100 entries.
- GameObjects.Player.ShootAt: requires a target on the board. In the source a coordinate of 10 or more raises IndexError and a negative one wraps around to the far edge; neither path is modelled, and coordinates are natural numbers. Every caller decodes an index below 100 to an on-board cell (`Grid.DecodeInBounds`).
- GameObjects.Ship.ShootAt: requires a target on the board for the same reason; numpy would raise IndexError on indexing the ship matrix out of range. It is only called from `Player.ShootAt`, whose target is on the board.
- CreateModel.GenerateMaps: the overlays are supplied by the caller rather than drawn from `np.random.normal(0.5, 2.0) > 0.5`.
