/** The game engine's objects: a Ship places itself on the board and records
    hits, a Player owns a fleet and a shot record, and a Game owns its
    players. Each object keeps ghost copies of its arrays, in the terms of
    GameRules, and its methods are stated against those rules. */
module GameObjects {
  import opened Grid
  import opened GameRules

  class Ship {
    const size: nat
    var isHorizontal: bool
    /** 1 on the ship's cells, 0 elsewhere. */
    const shipMatrix: array2<int>
    /** 1 on the ship's cells that have been hit, 0 elsewhere. */
    const isHitPoints: array2<int>

    ghost var Cells: Matrix
    ghost var Hits: Matrix
    /** The placement attempt that was accepted. */
    ghost var Placement: Draw

    ghost function View(): ShipView
      reads this
    {
      ShipView(size, Cells, Hits)
    }

    ghost function Repr(): set<object> {
      {this, shipMatrix, isHitPoints}
    }

    ghost predicate Valid()
      reads this, shipMatrix, isHitPoints
    {
      shipMatrix != isHitPoints &&
      shipMatrix.Length0 == Width && shipMatrix.Length1 == Height &&
      isHitPoints.Length0 == Width && isHitPoints.Length1 == Height &&
      Mirrors(shipMatrix, Cells) && Mirrors(isHitPoints, Hits) &&
      ShipOk(View())
    }

    /** A new ship of the given size, with the random placement attempts
        supplied as draws: it takes the first attempt that fits and starts
        unhit. */
    constructor (size: nat, draws: seq<Draw>)
      requires forall i :: 0 <= i < |draws| ==> ValidDraw(draws[i])
      requires SomeFit(draws, size)
      ensures Valid() && this.size == size
      ensures Placement == draws[FirstFit(draws, size)]
      ensures isHorizontal == Placement.horizontal && Cells == RunMatrix(Placement, size)
      ensures Hits == Zeros(Width, Height)
      ensures fresh(shipMatrix) && fresh(isHitPoints)
    {
      this.size := size;
      shipMatrix := new int[Width, Height]((a, b) => 0);
      isHitPoints := new int[Width, Height]((a, b) => 0);
      new;
      Generate(draws);
    }

    /** The two matrices are distinct 10 x 10 arrays. */
    ghost predicate Shaped() {
      shipMatrix != isHitPoints &&
      shipMatrix.Length0 == Width && shipMatrix.Length1 == Height &&
      isHitPoints.Length0 == Width && isHitPoints.Length1 == Height
    }

    /** One attempt: pick the orientation and clear the ship matrix. */
    method Generate(draws: seq<Draw>)
      requires Shaped()
      requires forall i :: 0 <= i < |draws| ==> ValidDraw(draws[i])
      requires SomeFit(draws, size)
      modifies this, shipMatrix, isHitPoints
      ensures Valid()
      ensures Placement == draws[FirstFit(draws, size)]
      ensures isHorizontal == Placement.horizontal && Cells == RunMatrix(Placement, size)
      ensures Hits == Zeros(Width, Height)
      decreases |draws|, 1
    {
      isHorizontal := draws[0].horizontal;
      forall a, b | 0 <= a < Width && 0 <= b < Height {
        shipMatrix[a, b] := 0;
      }
      GeneratePoints(draws);
    }

    /** Pick the start cell, lay the run, and retry with the remaining draws
        when the run was cut off at the edge of the board. */
    method GeneratePoints(draws: seq<Draw>)
      requires Shaped()
      requires forall i :: 0 <= i < |draws| ==> ValidDraw(draws[i])
      requires SomeFit(draws, size)
      requires isHorizontal == draws[0].horizontal
      requires forall a, b :: 0 <= a < Width && 0 <= b < Height ==> shipMatrix[a, b] == 0
      modifies this, shipMatrix, isHitPoints
      ensures Valid()
      ensures Placement == draws[FirstFit(draws, size)]
      ensures isHorizontal == Placement.horizontal && Cells == RunMatrix(Placement, size)
      ensures Hits == Zeros(Width, Height)
      decreases |draws|, 0
    {
      var startingXPos, startingYPos := draws[0].startX, draws[0].startY;
      forall a, b | 0 <= a < Width && 0 <= b < Height {
        isHitPoints[a, b] := 0;
      }
      LayRun(startingXPos, startingYPos);
      FlatMirror(shipMatrix, RunMatrix(draws[0], size));
      PlacementAccepted(draws[0], size);
      if !(ArraySum(shipMatrix) == size) {
        var i :| 0 <= i < |draws| && Fits(draws[i], size);
        assert Fits(draws[1..][i - 1], size);
        Generate(draws[1..]);
      } else {
        Keep(draws[0]);
      }
    }

    /** The run of d lies on the board: keep it, with no hits yet. */
    method Keep(d: Draw)
      requires Shaped() && ValidDraw(d) && Fits(d, size) && isHorizontal == d.horizontal
      requires Mirrors(shipMatrix, RunMatrix(d, size))
      requires forall a, b :: 0 <= a < Width && 0 <= b < Height ==> isHitPoints[a, b] == 0
      modifies this`Hits, this`Placement, this`Cells
      ensures Valid()
      ensures Placement == d && Cells == RunMatrix(d, size) && Hits == Zeros(Width, Height)
    {
      Hits, Placement, Cells := Zeros(Width, Height), d, RunMatrix(d, size);
      AcceptedShipOk(d, size);
    }

    /** Write the run from [startingXPos, startingYPos] into the cleared ship
        matrix: the whole column or row is overwritten, and the run is cut off
        at the edge of the board. */
    method LayRun(startingXPos: nat, startingYPos: nat)
      requires Shaped() && InBounds(startingXPos, startingYPos)
      requires forall a, b :: 0 <= a < Width && 0 <= b < Height ==> shipMatrix[a, b] == 0
      modifies shipMatrix
      ensures Mirrors(shipMatrix, RunMatrix(Draw(isHorizontal, startingXPos, startingYPos), size))
    {
      if isHorizontal {
        forall a | 0 <= a < Width {
          shipMatrix[a, startingYPos] := if startingXPos <= a < startingXPos + size then 1 else 0;
        }
      } else {
        forall b | 0 <= b < Height {
          shipMatrix[startingXPos, b] := if startingYPos <= b < startingYPos + size then 1 else 0;
        }
      }
      RunMatrixAt(Draw(isHorizontal, startingXPos, startingYPos), size);
    }

    /** Ship.shootAt: report whether the target is one of the ship's cells,
        and if so mark it hit. */
    method ShootAt(x: nat, y: nat) returns (hit: bool)
      requires Valid() && InBounds(x, y)
      modifies this`Hits, isHitPoints
      ensures Valid()
      ensures hit <==> Occupies(old(View()), x, y)
      ensures View() == ShootShip(old(View()), x, y)
    {
      ShootShipEffect(View(), x, y);
      if shipMatrix[x, y] == 1 {
        isHitPoints[x, y] := 1;
        Hits := Set(Hits, x, y, 1);
        hit := true;
      } else {
        hit := false;
      }
    }

    /** Ship.isAlive: fewer hit cells than the ship's size. */
    function IsAlive(): (alive: bool)
      reads this, shipMatrix, isHitPoints
      requires Valid()
      ensures alive <==> ShipAlive(View())
      ensures alive <==> HitCount(View()) < size
    {
      FlatMirror(isHitPoints, Hits);
      AliveIffFewerHits(View());
      ArraySum(isHitPoints) < size
    }
  }

  /** The placement attempts for each ship of a fleet. */
  predicate FleetDraws(draws: seq<seq<Draw>>) {
    |draws| == |FleetSizes| &&
    forall i :: 0 <= i < |draws| ==>
      SomeFit(draws[i], FleetSizes[i]) &&
      forall j :: 0 <= j < |draws[i]| ==> ValidDraw(draws[i][j])
  }

  /** Each ship of the fleet lies where the first fitting draw of its own
      attempts put it. */
  ghost predicate PlacedBy(fleet: seq<ShipView>, draws: seq<seq<Draw>>)
    requires FleetDraws(draws)
  {
    |fleet| == |FleetSizes| &&
    forall k :: 0 <= k < |fleet| ==>
      fleet[k].cells == RunMatrix(draws[k][FirstFit(draws[k], FleetSizes[k])], FleetSizes[k])
  }

  /** No two ships share an object: distinct hit matrices make distinct
      ships, and no ship's hit matrix is another's position matrix. */
  ghost predicate Apart(fleet: seq<Ship>) {
    forall i, j :: 0 <= i < |fleet| && 0 <= j < |fleet| && i != j ==>
      fleet[i].isHitPoints != fleet[j].isHitPoints && fleet[i].isHitPoints != fleet[j].shipMatrix
  }

  /** Every ship, with its matrices, lies in hull, is a valid ship, and holds
      the corresponding view. */
  ghost predicate Holds(fleet: seq<Ship>, views: seq<ShipView>, hull: set<object>)
    reads hull
  {
    |views| == |fleet| &&
    (forall i :: 0 <= i < |fleet| ==>
       fleet[i] in hull && fleet[i].shipMatrix in hull && fleet[i].isHitPoints in hull) &&
    (forall i :: 0 <= i < |fleet| ==> fleet[i].Valid() && fleet[i].View() == views[i])
  }

  /** The views of valid ships are well-formed. */
  lemma HoldsFleetOk(fleet: seq<Ship>, views: seq<ShipView>, hull: set<object>)
    requires Holds(fleet, views, hull)
    ensures FleetOk(views)
  {
    forall i | 0 <= i < |views| ensures ShipOk(views[i]) {
      assert fleet[i].Valid() && fleet[i].View() == views[i];
    }
  }

  /** A valid ship outside hull extends a fleet held in hull. */
  lemma HoldsSnoc(fleet: seq<Ship>, views: seq<ShipView>, hull: set<object>, ship: Ship)
    requires Holds(fleet, views, hull) && Apart(fleet) && ship.Valid()
    requires ship !in hull && ship.shipMatrix !in hull && ship.isHitPoints !in hull
    ensures Holds(fleet + [ship], views + [ship.View()], hull + ship.Repr())
    ensures Apart(fleet + [ship])
  {
    var fleet', views' := fleet + [ship], views + [ship.View()];
    forall i | 0 <= i < |fleet'|
      ensures fleet'[i].Valid() && fleet'[i].View() == views'[i]
    {
      if i < |fleet| { assert fleet'[i] == fleet[i] && views'[i] == views[i]; }
    }
  }

  /** A new fleet: ships of sizes 3, 5, 4, 2 and 2, made in that order, each
      placed from its own attempts. */
  method NewFleet(draws: seq<seq<Draw>>) returns (fleet: seq<Ship>, ghost views: seq<ShipView>, ghost hull: set<object>)
    requires FleetDraws(draws)
    ensures |fleet| == |FleetSizes| && fresh(hull)
    ensures Holds(fleet, views, hull) && Apart(fleet)
    ensures forall j :: 0 <= j < |fleet| ==>
              fleet[j].size == FleetSizes[j] && views[j].hits == Zeros(Width, Height) &&
              views[j].cells == RunMatrix(draws[j][FirstFit(draws[j], FleetSizes[j])], FleetSizes[j])
  {
    fleet, views, hull := [], [], {};
    var i := 0;
    while i < |FleetSizes|
      invariant 0 <= i <= |FleetSizes| && |fleet| == i && fresh(hull)
      invariant Holds(fleet, views, hull) && Apart(fleet)
      invariant forall j :: 0 <= j < i ==>
                  fleet[j].size == FleetSizes[j] && views[j].hits == Zeros(Width, Height) &&
                  views[j].cells == RunMatrix(draws[j][FirstFit(draws[j], FleetSizes[j])], FleetSizes[j])
    {
      fleet, views, hull := AddShip(fleet, views, hull, FleetSizes[i], draws[i]);
      i := i + 1;
    }
  }

  /** Appends one new ship of the given size to the fleet, placed from draws. */
  method AddShip(fleet: seq<Ship>, ghost views: seq<ShipView>, ghost hull: set<object>, size: nat, draws: seq<Draw>)
    returns (fleet': seq<Ship>, ghost views': seq<ShipView>, ghost hull': set<object>)
    requires Holds(fleet, views, hull) && Apart(fleet)
    requires forall i :: 0 <= i < |draws| ==> ValidDraw(draws[i])
    requires SomeFit(draws, size)
    ensures |fleet'| == |fleet| + 1 && |views'| == |fleet'|
    ensures fleet'[..|fleet|] == fleet && views'[..|fleet|] == views
    ensures hull <= hull' && fresh(hull' - hull)
    ensures Holds(fleet', views', hull') && Apart(fleet')
    ensures fleet'[|fleet|].size == size && views'[|fleet|].hits == Zeros(Width, Height)
    ensures views'[|fleet|].cells == RunMatrix(draws[FirstFit(draws, size)], size)
  {
    var ship := new Ship(size, draws);
    HoldsSnoc(fleet, views, hull, ship);
    fleet' := fleet + [ship];
    views' := views + [ship.View()];
    hull' := hull + ship.Repr();
    assert fleet'[..|fleet|] == fleet && views'[..|fleet|] == views;
    assert views'[|fleet|] == ship.View();
  }

  class Player {
    const ships: seq<Ship>
    /** 0 = not shot, 1 = hit, -1 = miss. */
    const shotsFired: array2<int>

    /** What each ship holds, in fleet order. */
    ghost var Fleet: seq<ShipView>
    ghost var Shots: Matrix
    /** The ships and their matrices. */
    ghost const Hull: set<object>
    ghost const Repr: set<object>

    ghost predicate Valid()
      reads this, Repr
    {
      this in Repr && shotsFired in Repr && Hull <= Repr && this !in Hull && shotsFired !in Hull &&
      Apart(ships) && Holds(ships, Fleet, Hull) &&
      |ships| == |FleetSizes| &&
      (forall i :: 0 <= i < |ships| ==> ships[i].size == FleetSizes[i]) &&
      shotsFired.Length0 == Width && shotsFired.Length1 == Height &&
      Mirrors(shotsFired, Shots) &&
      Consistent(Fleet, Shots)
    }

    /** A new player: ships of sizes 3, 5, 4, 2 and 2, made in that order,
        each placed from its own attempts, and a shot record with no shots. */
    constructor (draws: seq<seq<Draw>>)
      requires FleetDraws(draws)
      ensures Valid() && fresh(Repr)
      ensures Fresh(Fleet, Shots)
      ensures forall i :: 0 <= i < |ships| ==>
                Fleet[i].cells == RunMatrix(draws[i][FirstFit(draws[i], FleetSizes[i])], FleetSizes[i])
    {
      var record := new int[Width, Height]((a, b) => 0);
      var fleet;
      ghost var views, hull;
      fleet, views, hull := NewFleet(draws);
      HoldsFleetOk(fleet, views, hull);
      FreshConsistent(views, Zeros(Width, Height));
      ships := fleet;
      shotsFired := record;
      Fleet := views;
      Shots := Zeros(Width, Height);
      Hull := hull;
      Repr := {this, shotsFired} + hull;
      new;
    }

    /** getHits: the number of cells recorded as hits. */
    function GetHits(): (n: nat)
      reads this, Repr
      requires Valid()
      ensures n == HitTotal(Shots) && n <= ShotCount(Shots)
    {
      FlatMirror(shotsFired, Shots);
      ShotCountBound(Shots);
      Count(Flat(shotsFired), IsOne)
    }

    /** getNumberOfShotsFired: the number of nonzero cells of the record. */
    function GetNumberOfShotsFired(): (n: nat)
      reads this, Repr
      requires Valid()
      ensures n == ShotCount(Shots) && n <= CellCount
    {
      FlatMirror(shotsFired, Shots);
      ShotCountBound(Shots);
      Count(Flat(shotsFired), IsShot)
    }

    /** getShotMatrix: the live shot record itself (the caller sees later shots). */
    function GetShotMatrix(): (m: array2<int>)
      reads this, Repr
      requires Valid()
      ensures m in Repr && Mirrors(m, Shots)
    {
      shotsFired
    }

    /** Ship i takes the shot at [x, y]; the other ships keep their state. */
    method ShootOne(i: nat, x: nat, y: nat, ghost fleet: seq<ShipView>) returns (hit: bool)
      requires i < |ships| && InBounds(x, y) && Apart(ships) && Holds(ships, fleet, Hull)
      modifies (ships[i] as Ship)`Hits, ships[i].isHitPoints
      ensures ShipOk(fleet[i])
      ensures Holds(ships, fleet[i := ShootShip(fleet[i], x, y)], Hull)
      ensures hit <==> Occupies(fleet[i], x, y)
    {
      hit := ships[i].ShootAt(x, y);
    }

    /** Every ship takes the shot at [x, y]; the result says whether one of
        them lies there. */
    method ShootShips(x: nat, y: nat, ghost fleet: seq<ShipView>) returns (hit: bool)
      requires InBounds(x, y) && Apart(ships) && Holds(ships, fleet, Hull)
      modifies ships`Hits, set j | 0 <= j < |ships| :: ships[j].isHitPoints
      ensures FleetOk(fleet)
      ensures Holds(ships, ShootFleet(fleet, x, y), Hull)
      ensures hit <==> Covered(fleet, x, y)
    {
      HoldsFleetOk(ships, fleet, Hull);
      ghost var views := fleet;
      hit := false;
      var i := 0;
      while i < |ships|
        invariant Holds(ships, views, Hull) && ShotPrefix(fleet, views, i, x, y)
        invariant hit <==> Covered(fleet[..i], x, y)
      {
        CoveredStep(fleet, i);
        ShotPrefixStep(fleet, views, i, x, y);
        var h := ShootOne(i, x, y, views);
        views := views[i := ShootShip(views[i], x, y)];
        hit := hit || h;
        i := i + 1;
      }
      ShotPrefixAll(fleet, views, x, y);
      assert fleet[..i] == fleet;
    }

    /** Player.shootAt: every ship takes the shot, and the record marks the
        target 1 if some ship was hit and -1 otherwise. */
    method ShootAt(x: nat, y: nat) returns (successfulHit: bool, alreadyShot: bool)
      requires Valid() && InBounds(x, y)
      modifies Repr
      ensures Valid()
      ensures alreadyShot <==> old(Shots)[x][y] != 0
      ensures successfulHit <==> Covered(old(Fleet), x, y)
      ensures Fleet == ShootFleet(old(Fleet), x, y)
      ensures Shots == Resolve(old(Shots), old(Fleet), x, y)
    {
      alreadyShot := shotsFired[x, y] != 0;
      successfulHit := ShootShips(x, y, Fleet);
      ghost var fleet' := ShootFleet(Fleet, x, y);
      ShotKeepsConsistent(Fleet, Shots, x, y);
      ghost var shots' := Store(shotsFired, Shots, x, y, if successfulHit then 1 else -1);
      assert Holds(ships, fleet', Hull) && Mirrors(shotsFired, shots');
      Fleet, Shots := fleet', shots';
    }

    /** Player.shipsAlive: the number of ships still alive. */
    method ShipsAlive() returns (alive: nat)
      requires Valid()
      ensures alive == AliveCount(Fleet)
    {
      alive := 0;
      var i := 0;
      while i < |ships|
        invariant 0 <= i <= |ships|
        invariant alive == AliveCount(Fleet[..i])
      {
        assert Fleet[..i + 1][..i] == Fleet[..i];
        if ships[i].IsAlive() {
          alive := alive + 1;
        }
        i := i + 1;
      }
      assert Fleet[..i] == Fleet;
    }

    /** Player.stillPlaying: some ship alive and fewer shots than cells. The
        shot count never exceeds the cell count, so the source's report of a
        count above it cannot happen. */
    method StillPlaying() returns (playing: bool)
      requires Valid()
      ensures playing <==> Playing(Fleet, Shots)
    {
      var shots := GetNumberOfShotsFired();
      var maxShotsFired := Width * Height;
      assert shots <= maxShotsFired;
      var alive := ShipsAlive();
      playing := alive > 0 && shots < maxShotsFired;
    }

    /** getShipMatrix: a board that is true where at least one ship lies.
        Ships may overlap; the board does not tell them apart. */
    method GetShipMatrix() returns (board: array2<bool>)
      requires Valid()
      ensures fresh(board) && board.Length0 == Width && board.Length1 == Height
      ensures forall a, b :: InBounds(a, b) ==> (board[a, b] <==> Covered(Fleet, a, b))
    {
      board := new bool[Width, Height]((a, b) => false);
      var i := 0;
      while i < |ships|
        modifies board
        invariant 0 <= i <= |ships|
        invariant forall a, b :: InBounds(a, b) ==> (board[a, b] <==> Covered(Fleet[..i], a, b))
      {
        var m := ships[i].shipMatrix;
        CoveredStep(Fleet, i);
        forall a, b | InBounds(a, b)
          ensures m[a, b] != 0 <==> Occupies(Fleet[i], a, b)
        {
          assert m[a, b] == Fleet[i].cells[a][b] && IsBit(m[a, b]);
        }
        forall a, b | 0 <= a < Width && 0 <= b < Height {
          board[a, b] := board[a, b] || m[a, b] != 0;
        }
        i := i + 1;
      }
      assert Fleet[..i] == Fleet;
    }
  }

  class Game {
    const players: seq<Player>
    ghost const Repr: set<object>

    ghost predicate Valid()
      reads Repr
    {
      (forall i :: 0 <= i < |players| ==>
         players[i] in Repr && players[i].Repr <= Repr && players[i].Valid()) &&
      (forall i, j :: 0 <= i < j < |players| ==> players[i].Repr !! players[j].Repr)
    }

    /** Game(numberOfPlayers): that many fresh players, in order. */
    constructor (numberOfPlayers: nat, draws: seq<seq<seq<Draw>>>)
      requires |draws| == numberOfPlayers
      requires forall i :: 0 <= i < numberOfPlayers ==> FleetDraws(draws[i])
      ensures Valid() && fresh(Repr) && |players| == numberOfPlayers
      ensures forall i :: 0 <= i < numberOfPlayers ==> Fresh(players[i].Fleet, players[i].Shots)
      ensures forall i :: 0 <= i < numberOfPlayers ==> PlacedBy(players[i].Fleet, draws[i])
    {
      var ps: seq<Player> := [];
      ghost var repr: set<object> := {};
      var i := 0;
      while i < numberOfPlayers
        invariant 0 <= i <= numberOfPlayers && |ps| == i
        invariant fresh(repr)
        invariant forall j :: 0 <= j < i ==>
                    ps[j] in repr && ps[j].Repr <= repr && ps[j].Valid() && Fresh(ps[j].Fleet, ps[j].Shots) &&
                    PlacedBy(ps[j].Fleet, draws[j])
        invariant forall j, k :: 0 <= j < k < i ==> ps[j].Repr !! ps[k].Repr
      {
        var player := new Player(draws[i]);
        ps := ps + [player];
        repr := repr + player.Repr;
        i := i + 1;
      }
      players := ps;
      Repr := repr;
    }

    /** playersStillPlaying: whether some player is still playing. */
    method PlayersStillPlaying() returns (playing: bool)
      requires Valid()
      ensures playing <==> exists i :: 0 <= i < |players| && Playing(players[i].Fleet, players[i].Shots)
    {
      var i := 0;
      while i < |players|
        invariant 0 <= i <= |players|
        invariant forall j :: 0 <= j < i ==> !Playing(players[j].Fleet, players[j].Shots)
      {
        var still := players[i].StillPlaying();
        if still {
          return true;
        }
        i := i + 1;
      }
      return false;
    }
  }
}
