/** Shaping the training data: each player's fleet and a 0/1 overlay of shots
    become a record of 200 entries, the 100 ship bits followed by the 100 cells
    of the observed board (+1 hit, -1 miss, 0 not shot); the records are split
    into training and test columns and rows; predicted score vectors are cut
    into 0/1 guesses at their 17th-highest score. */
module CreateModel {
  import opened Grid
  import opened Ranking
  import opened GameRules
  import opened GameObjects

  // ---------------------------------------------------------------------------
  // The observed board

  /** One cell of the board a model is trained on: where the overlay marks a
      shot, -1 off the ships and +1 on one; 0 where there is no shot. It is the
      sum of the negated missed-shot mask and the hit mask. */
  function ObservedCell(ship: int, shot: int): int {
    var noShip := if ship == 0 then 1 else 0;
    (-1) * (noShip * shot) + ship * shot
  }

  /** givenShipMatrix entry: the observed board of ship bits under a shot overlay. */
  function Observed(ships: Matrix, overlay: Matrix): (g: Matrix)
    requires IsBoard(ships) && IsBoard(overlay)
    ensures IsBoard(g)
  {
    seq(Width, a requires 0 <= a < Width =>
      seq(Height, b requires 0 <= b < Height => ObservedCell(ships[a][b], overlay[a][b])))
  }

  predicate BitBoard(g: Matrix) {
    IsBoard(g) && forall a, b :: 0 <= a < Width && 0 <= b < Height ==> IsBit(g[a][b])
  }

  /** On a 0/1 ship mask and a 0/1 overlay, a cell is observed as +1 when shot
      and on a ship, -1 when shot and off every ship, and 0 when not shot; so
      no -1 sits on a ship and no +1 off one. */
  lemma ObservedMeaning(ships: Matrix, overlay: Matrix, a: nat, b: nat)
    requires BitBoard(ships) && BitBoard(overlay) && InBounds(a, b)
    ensures Observed(ships, overlay)[a][b] == 1 <==> overlay[a][b] == 1 && ships[a][b] == 1
    ensures Observed(ships, overlay)[a][b] == -1 <==> overlay[a][b] == 1 && ships[a][b] == 0
    ensures Observed(ships, overlay)[a][b] == 0 <==> overlay[a][b] == 0
  {
  }

  /** The observed board holds only -1, 0 and 1. */
  lemma ObservedValues(ships: Matrix, overlay: Matrix)
    requires BitBoard(ships) && BitBoard(overlay)
    ensures forall a, b :: InBounds(a, b) ==> -1 <= Observed(ships, overlay)[a][b] <= 1
  {
    forall a, b | InBounds(a, b)
      ensures -1 <= Observed(ships, overlay)[a][b] <= 1
    {
      ObservedMeaning(ships, overlay, a, b);
    }
  }

  // ---------------------------------------------------------------------------
  // Records

  /** One training record: the flattened ship mask followed by the flattened
      observed board. */
  function RecordOf(ships: Matrix, overlay: Matrix): seq<int>
    requires IsBoard(ships) && IsBoard(overlay)
  {
    Flatten(ships) + Flatten(Observed(ships, overlay))
  }

  /** A record is 200 entries: cell (x, y) of the ship mask at x * 10 + y and
      cell (x, y) of the observed board at 100 + x * 10 + y. */
  lemma RecordLayout(ships: Matrix, overlay: Matrix, x: nat, y: nat)
    requires IsBoard(ships) && IsBoard(overlay) && InBounds(x, y)
    ensures |RecordOf(ships, overlay)| == 2 * CellCount
    ensures RecordOf(ships, overlay)[Encode(x, y)] == ships[x][y]
    ensures RecordOf(ships, overlay)[CellCount + Encode(x, y)] == Observed(ships, overlay)[x][y]
  {
    FlattenIndex(ships, Width, Height, x, y);
    FlattenIndex(Observed(ships, overlay), Width, Height, x, y);
  }

  /** The player's boolean ship matrix converted to 0/1 integers. */
  function BoolsToInts(board: array2<bool>): (g: Matrix)
    requires board.Length0 == Width && board.Length1 == Height
    reads board
    ensures IsBoard(g)
  {
    seq(Width, a requires 0 <= a < Width reads board =>
      seq(Height, b requires 0 <= b < Height reads board => if board[a, b] then 1 else 0))
  }

  /** The 0/1 mask of the cells some ship of the fleet covers. */
  ghost function ShipMask(fleet: seq<ShipView>): (g: Matrix)
    requires FleetOk(fleet)
    ensures BitBoard(g)
  {
    seq(Width, a requires 0 <= a < Width =>
      seq(Height, b requires 0 <= b < Height => if Covered(fleet, a, b) then 1 else 0))
  }

  /** The ship mask of a player, read off getShipMatrix. */
  method TrueShips(player: Player) returns (trueShips: Matrix)
    requires player.Valid()
    ensures FleetOk(player.Fleet) && trueShips == ShipMask(player.Fleet)
  {
    var board := player.GetShipMatrix();
    trueShips := BoolsToInts(board);
    HoldsFleetOk(player.ships, player.Fleet, player.Hull);
    forall a | 0 <= a < Width
      ensures trueShips[a] == ShipMask(player.Fleet)[a]
    {
    }
  }

  /** generateMaps: a fresh game of numberOfMapsToGenerate players; for each,
      its ship mask and, under that player's overlay, its observed board; then
      one record per player. The overlays stand for the thresholded normal
      draws. */
  method GenerateMaps(numberOfMapsToGenerate: nat, draws: seq<seq<seq<Draw>>>, overlays: seq<Matrix>)
    returns (game: Game, outputData: seq<seq<int>>)
    requires |draws| == numberOfMapsToGenerate && |overlays| == numberOfMapsToGenerate
    requires forall i :: 0 <= i < numberOfMapsToGenerate ==> FleetDraws(draws[i])
    requires forall i :: 0 <= i < numberOfMapsToGenerate ==> IsBoard(overlays[i])
    ensures game.Valid() && fresh(game.Repr) && |game.players| == numberOfMapsToGenerate
    ensures forall i :: 0 <= i < numberOfMapsToGenerate ==>
              Fresh(game.players[i].Fleet, game.players[i].Shots) && PlacedBy(game.players[i].Fleet, draws[i])
    ensures |outputData| == numberOfMapsToGenerate
    ensures forall i :: 0 <= i < numberOfMapsToGenerate ==> FleetOk(game.players[i].Fleet)
    ensures forall i :: 0 <= i < numberOfMapsToGenerate ==>
              outputData[i] == RecordOf(ShipMask(game.players[i].Fleet), overlays[i])
  {
    game := new Game(numberOfMapsToGenerate, draws);
    var trueShipMatrix, givenShipMatrix := ObserveAll(game.players, overlays);
    outputData := Concatenate(trueShipMatrix, givenShipMatrix);
  }

  /** The first loop of generateMaps: each player's ship mask and observed board. */
  method ObserveAll(players: seq<Player>, overlays: seq<Matrix>)
    returns (trueShipMatrix: seq<Matrix>, givenShipMatrix: seq<Matrix>)
    requires |overlays| == |players|
    requires forall i :: 0 <= i < |players| ==> players[i].Valid() && IsBoard(overlays[i])
    ensures |trueShipMatrix| == |givenShipMatrix| == |players|
    ensures forall j :: 0 <= j < |players| ==>
              FleetOk(players[j].Fleet) &&
              trueShipMatrix[j] == ShipMask(players[j].Fleet) &&
              givenShipMatrix[j] == Observed(trueShipMatrix[j], overlays[j])
  {
    trueShipMatrix, givenShipMatrix := [], [];
    var i := 0;
    while i < |players|
      invariant 0 <= i <= |players| && |trueShipMatrix| == |givenShipMatrix| == i
      invariant forall j :: 0 <= j < i ==>
                  FleetOk(players[j].Fleet) &&
                  trueShipMatrix[j] == ShipMask(players[j].Fleet) &&
                  givenShipMatrix[j] == Observed(trueShipMatrix[j], overlays[j])
    {
      var trueShips := TrueShips(players[i]);
      trueShipMatrix := trueShipMatrix + [trueShips];
      givenShipMatrix := givenShipMatrix + [Observed(trueShips, overlays[i])];
      i := i + 1;
    }
  }

  /** The second loop of generateMaps: record i is the flattened ship mask
      followed by the flattened observed board. */
  method Concatenate(trueShipMatrix: seq<Matrix>, givenShipMatrix: seq<Matrix>) returns (outputData: seq<seq<int>>)
    requires |trueShipMatrix| == |givenShipMatrix|
    ensures |outputData| == |trueShipMatrix|
    ensures forall j :: 0 <= j < |outputData| ==> outputData[j] == Flatten(trueShipMatrix[j]) + Flatten(givenShipMatrix[j])
  {
    outputData := [];
    var i := 0;
    while i < |trueShipMatrix|
      invariant 0 <= i <= |trueShipMatrix| && |outputData| == i
      invariant forall j :: 0 <= j < i ==> outputData[j] == Flatten(trueShipMatrix[j]) + Flatten(givenShipMatrix[j])
    {
      outputData := outputData + [Flatten(trueShipMatrix[i]) + Flatten(givenShipMatrix[i])];
      i := i + 1;
    }
  }

  // ---------------------------------------------------------------------------
  // splitData

  /** The first n columns of one row, or all of them when there are fewer. */
  function Head(row: seq<int>, n: nat): seq<int> {
    if |row| <= n then row else row[..n]
  }

  /** The columns of one row after the first n. */
  function Tail(row: seq<int>, n: nat): seq<int> {
    if |row| <= n then [] else row[n..]
  }

  /** The number of training rows, four fifths of the row count rounded down.
      splitData truncates the floating-point product of 0.8 and the row count.
      The double nearest 0.8 exceeds 4/5 by exactly 1 / (5 * 2^52), so for n
      below 2^50 the exact product lies above 4n/5 by less than 0.05, and
      rounding it to a double moves it by at most half a unit in the last
      place, at most 2^-4 since the product is below 2^50. The fractional part
      of 4n/5 is 0, 0.2, 0.4, 0.6 or 0.8, so reaching the next whole number
      needs a rise of at least 0.2, and rounding never goes below a whole number that the exact product exceeds.
      For every n below 2^50 the truncated product is therefore exactly
      floor(4n/5). */
  function TrainCount(n: nat): (k: nat)
    ensures k <= n
  {
    (4 * n) / 5
  }

  /** Splits the rows into training and test parts, in order: the first k rows
      train and the rest test, with k the training count. The inputs X are the
      columns after the first board-size many, the labels Y those first columns. */
  function SplitData(df: seq<seq<int>>): (r: (seq<seq<int>>, seq<seq<int>>, seq<seq<int>>, seq<seq<int>>))
    ensures |r.0| == |r.2| == TrainCount(|df|) && |r.1| == |r.3| == |df| - TrainCount(|df|)
  {
    var numberToTrainOn := TrainCount(|df|);
    var X := seq(|df|, i requires 0 <= i < |df| => Tail(df[i], CellCount));
    var Y := seq(|df|, i requires 0 <= i < |df| => Head(df[i], CellCount));
    (X[..numberToTrainOn], X[numberToTrainOn..], Y[..numberToTrainOn], Y[numberToTrainOn..])
  }

  /** Splitting a row into its head and tail columns loses nothing. */
  lemma HeadTail(row: seq<int>, n: nat)
    ensures Head(row, n) + Tail(row, n) == row
  {
  }

  /** The split keeps row order: the training rows are the first k rows and the
      test rows the rest, k = int(0.8 * n), with every row cut into its first
      board-size columns (Y) and the rest (X). */
  lemma SplitPartition(df: seq<seq<int>>)
    ensures var (xTrain, xTest, yTrain, yTest) := SplitData(df);
            var k := TrainCount(|df|);
            |xTrain| == |yTrain| == k && |xTest| == |yTest| == |df| - k &&
            (forall i :: 0 <= i < k ==> yTrain[i] + xTrain[i] == df[i]) &&
            (forall i :: 0 <= i < |df| - k ==> yTest[i] + xTest[i] == df[k + i])
  {
    forall i | 0 <= i < |df| {
      HeadTail(df[i], CellCount);
    }
  }

  /** splitData undoes the record layout: Y of a record is its ship mask and X
      its observed board. */
  lemma SplitRecords(ships: seq<Matrix>, overlays: seq<Matrix>, df: seq<seq<int>>)
    requires |ships| == |overlays| == |df|
    requires forall i :: 0 <= i < |df| ==>
               IsBoard(ships[i]) && IsBoard(overlays[i]) && df[i] == RecordOf(ships[i], overlays[i])
    ensures var (xTrain, xTest, yTrain, yTest) := SplitData(df);
            var k := TrainCount(|df|);
            (forall i :: 0 <= i < k ==>
               yTrain[i] == Flatten(ships[i]) && xTrain[i] == Flatten(Observed(ships[i], overlays[i]))) &&
            (forall i :: k <= i < |df| ==>
               yTest[i - k] == Flatten(ships[i]) && xTest[i - k] == Flatten(Observed(ships[i], overlays[i])))
  {
    forall i | 0 <= i < |df|
      ensures Head(df[i], CellCount) == Flatten(ships[i])
      ensures Tail(df[i], CellCount) == Flatten(Observed(ships[i], overlays[i]))
    {
      FlattenLength(ships[i], Width, Height);
      FlattenLength(Observed(ships[i], overlays[i]), Width, Height);
      assert df[i][..CellCount] == Flatten(ships[i]);
    }
  }

  // ---------------------------------------------------------------------------
  // correctPredictions

  /** The top cut: 5 + 4 + 3 + 2 + 2 = 16. */
  const TopCut: nat := 16

  /** The cut-off score: the entry at position 16 (counting from 0) once the
      scores are sorted from highest to lowest, 16 being the fleet's total
      size 5 + 4 + 3 + 2 + 2. */
  function TopScore(p: seq<int>): (t: int)
    requires |p| > TopCut
    ensures t in p
  {
    RankIsRanking(p);
    RankingDistinct(Rank(p), p);
    p[Rank(p)[TopCut]]
  }

  /** A prediction turned into a 0/1 guess: 1 for every score at or above the
      cut-off score, 0 for the others. */
  function Corrected(p: seq<int>): (c: seq<int>)
    requires |p| > TopCut
    ensures |c| == |p| && forall k :: 0 <= k < |c| ==> c[k] == 0 || c[k] == 1
  {
    seq(|p|, k requires 0 <= k < |p| => if p[k] >= TopScore(p) then 1 else 0)
  }

  /** correctPredictions: one corrected row per prediction. */
  method CorrectPredictions(predictions: seq<seq<int>>) returns (correctedPredictions: seq<seq<int>>)
    requires forall i :: 0 <= i < |predictions| ==> |predictions[i]| > TopCut
    ensures |correctedPredictions| == |predictions|
    ensures forall i :: 0 <= i < |predictions| ==> correctedPredictions[i] == Corrected(predictions[i])
  {
    correctedPredictions := [];
    var i := 0;
    while i < |predictions|
      invariant 0 <= i <= |predictions| && |correctedPredictions| == i
      invariant forall j :: 0 <= j < i ==> correctedPredictions[j] == Corrected(predictions[j])
    {
      var prediction := predictions[i];
      correctedPredictions := correctedPredictions + [Corrected(prediction)];
      i := i + 1;
    }
  }

  /** A corrected row is as long as the prediction and holds only 0 and 1; at
      least 17 cells are 1, and every 1-cell scores at least every 0-cell. */
  lemma CorrectedRow(p: seq<int>)
    requires |p| > TopCut
    ensures |Corrected(p)| == |p|
    ensures forall k :: 0 <= k < |p| ==> IsBit(Corrected(p)[k])
    ensures Count(Corrected(p), IsOne) >= TopCut + 1
    ensures forall k, l :: 0 <= k < |p| && 0 <= l < |p| && Corrected(p)[k] == 1 && Corrected(p)[l] == 0 ==> p[k] >= p[l]
  {
    var r := Rank(p);
    var c := Corrected(p);
    RankIsRanking(p);
    RankingDistinct(r, p);
    var top := set j | 0 <= j < TopCut + 1 :: r[j];
    assert TopScore(p) == p[r[TopCut]];
    forall k | k in top
      ensures k < |c| && c[k] == 1
    {
      var j :| 0 <= j < TopCut + 1 && r[j] == k;
      assert p[r[j]] >= p[r[TopCut]];
    }
    ImageSize(r, TopCut + 1);
    CountAtLeast(c, top);
  }

  /** The cut is the 17th-highest score: at most 16 cells score strictly above it. */
  lemma AboveTopFew(p: seq<int>)
    requires |p| > TopCut
    ensures |set k | 0 <= k < |p| && p[k] > TopScore(p)| <= TopCut
  {
    var r := Rank(p);
    RankIsRanking(p);
    RankingDistinct(r, p);
    var above := set k | 0 <= k < |p| && p[k] > TopScore(p);
    var first := set j | 0 <= j < TopCut :: r[j];
    forall k | k in above
      ensures k in first
    {
      var q := RankingCovers(r, p, k);
    }
    ImageSize(r, TopCut);
    SubsetSize(above, first);
  }

  lemma {:induction false} SubsetSize(a: set<nat>, b: set<nat>)
    requires a <= b
    ensures |a| <= |b|
    decreases |b|
  {
    if a != {} {
      var x :| x in a;
      SubsetSize(a - {x}, b - {x});
    }
  }

  /** The first m entries of a sequence without repeats form a set of m elements. */
  lemma {:induction false} ImageSize(r: seq<nat>, m: nat)
    requires m <= |r| && forall i, j :: 0 <= i < j < |r| ==> r[i] != r[j]
    ensures |set j | 0 <= j < m :: r[j]| == m
  {
    if m > 0 {
      ImageSize(r, m - 1);
      var s := set j | 0 <= j < m - 1 :: r[j];
      assert (set j | 0 <= j < m :: r[j]) == s + {r[m - 1]};
      assert r[m - 1] !in s;
    }
  }

  /** A vector holding 1 on every index of a set counts at least that many ones. */
  lemma {:induction false} CountAtLeast(s: seq<int>, ones: set<nat>)
    requires forall k :: k in ones ==> k < |s| && s[k] == 1
    ensures Count(s, IsOne) >= |ones|
    decreases |s|
  {
    if s != [] {
      var n := |s| - 1;
      assert s == s[..n] + [s[n]];
      CountAppend(s[..n], [s[n]], IsOne);
      CountAtLeast(s[..n], ones - {n});
    } else {
      assert ones == {};
    }
  }
}
