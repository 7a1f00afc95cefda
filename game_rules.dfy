/** The rules of the game engine as values: where a placement attempt puts a
    ship, what a shot does to a ship, to a fleet and to the shot record, how
    many shots have been fired, and when a player is still playing. The classes
    of GameObjects keep ghost copies of their state in these terms. */
module GameRules {
  import opened Grid

  /** Every player's fleet, in the order the ships are built. */
  const FleetSizes: seq<nat> := [3, 5, 4, 2, 2]

  // ---------------------------------------------------------------------------
  // Placement

  /** One placement attempt: the orientation and the starting cell the random
      generator picked. */
  datatype Draw = Draw(horizontal: bool, startX: int, startY: int)

  /** A placement draw: its start cell is on the board, as the random start
      coordinates always are. */
  predicate ValidDraw(d: Draw) {
    InBounds(d.startX, d.startY)
  }

  /** Whether the attempt writes a 1 at [a, b]: the run starts at the start
      cell, runs along x (horizontal) or along y (vertical), and is cut off at
      the edge of the board. */
  predicate OnRun(d: Draw, size: nat, a: int, b: int) {
    if d.horizontal then b == d.startY && d.startX <= a < d.startX + size
    else a == d.startX && d.startY <= b < d.startY + size
  }

  /** The shipMatrix an attempt leaves behind. */
  function RunMatrix(d: Draw, size: nat): (g: Matrix)
    ensures IsBoard(g)
  {
    RunColumns(d, size, Width)
  }

  /** Column a of the attempt's matrix. */
  function RunColumn(d: Draw, size: nat, a: int): (c: seq<int>)
    ensures |c| == Height
  {
    seq(Height, b => if OnRun(d, size, a, b) then 1 else 0)
  }

  /** The first n columns of the attempt's matrix. */
  function RunColumns(d: Draw, size: nat, n: nat): (g: Matrix)
    ensures |g| == n && forall a :: 0 <= a < n ==> |g[a]| == Height
  {
    if n == 0 then [] else RunColumns(d, size, n - 1) + [RunColumn(d, size, n - 1)]
  }

  lemma {:induction false} RunColumnsAt(d: Draw, size: nat, n: nat, a: nat)
    requires a < n
    ensures RunColumns(d, size, n)[a] == RunColumn(d, size, a)
  {
    if a < n - 1 {
      RunColumnsAt(d, size, n - 1, a);
    }
  }

  /** The attempt writes 1 exactly on its run cells. */
  lemma RunMatrixAt(d: Draw, size: nat)
    ensures forall a :: 0 <= a < Width ==> RunMatrix(d, size)[a] == RunColumn(d, size, a)
    ensures forall a, b :: InBounds(a, b) ==>
              RunMatrix(d, size)[a][b] == if OnRun(d, size, a, b) then 1 else 0
  {
    forall a: nat | a < Width { RunColumnsAt(d, size, Width, a); }
  }

  /** The whole run lies on the board. */
  predicate Fits(d: Draw, size: nat) {
    if d.horizontal then d.startX + size <= Width else d.startY + size <= Height
  }

  /** The t-th cell of the run. */
  function RunCell(d: Draw, t: nat): (int, int) {
    if d.horizontal then (d.startX + t, d.startY) else (d.startX, d.startY + t)
  }

  /** The attempt's matrix sums to the number of run cells left after the cut
      at the edge of the board. */
  lemma RunSum(d: Draw, size: nat)
    requires ValidDraw(d)
    ensures Sum(Flatten(RunMatrix(d, size))) ==
            if d.horizontal then Min(d.startX + size, Width) - d.startX
            else Min(d.startY + size, Height) - d.startY
  {
    var g := RunMatrix(d, size);
    RunMatrixAt(d, size);
    SumFlatten(g);
    var rows := seq(|g|, a requires 0 <= a < |g| => Sum(g[a]));
    if d.horizontal {
      forall a | 0 <= a < Width
        ensures rows[a] == Indicator(Width, d.startX, d.startX + size)[a]
      {
        if d.startX <= a < d.startX + size {
          assert g[a] == Indicator(Height, d.startY, d.startY + 1);
          IndicatorSum(Height, d.startY, d.startY + 1);
        } else {
          assert g[a] == Indicator(Height, 0, 0);
          IndicatorSum(Height, 0, 0);
        }
      }
      assert rows == Indicator(Width, d.startX, d.startX + size);
      IndicatorSum(Width, d.startX, d.startX + size);
    } else {
      var len := Sum(Indicator(Height, d.startY, d.startY + size));
      IndicatorSum(Height, d.startY, d.startY + size);
      forall a | 0 <= a < Width
        ensures rows[a] == len * Indicator(Width, d.startX, d.startX + 1)[a]
      {
        if a == d.startX {
          assert g[a] == Indicator(Height, d.startY, d.startY + size);
        } else {
          assert g[a] == Indicator(Height, 0, 0);
          IndicatorSum(Height, 0, 0);
        }
      }
      ScaledIndicatorSum(rows, len, Width, d.startX);
    }
  }

  lemma {:induction false} ScaledIndicatorSum(s: seq<int>, c: int, n: nat, k: nat)
    requires k < n && |s| == n
    requires forall a :: 0 <= a < n ==> s[a] == c * Indicator(n, k, k + 1)[a]
    ensures Sum(s) == c
  {
    if k == 0 {
      assert forall a :: 0 <= a < n - 1 ==> s[1..][a] == 0;
      ZeroSum(s[1..]);
    } else {
      assert forall a :: 0 <= a < n - 1 ==> s[1..][a] == c * Indicator(n - 1, k - 1, k)[a];
      ScaledIndicatorSum(s[1..], c, n - 1, k - 1);
    }
  }

  lemma {:induction false} ZeroSum(s: seq<int>)
    requires forall a :: 0 <= a < |s| ==> s[a] == 0
    ensures Sum(s) == 0
  {
    if s != [] { ZeroSum(s[1..]); }
  }

  /** A placement attempt is accepted (its matrix sums to the ship's size)
      exactly when the run is not cut off at the edge. */
  lemma PlacementAccepted(d: Draw, size: nat)
    requires ValidDraw(d)
    ensures Sum(Flatten(RunMatrix(d, size))) == size <==> Fits(d, size)
  {
    RunSum(d, size);
  }

  /** An accepted placement marks exactly size contiguous in-bounds cells of
      one row or column: the cells RunCell(d, 0), ..., RunCell(d, size - 1). */
  lemma PlacementCells(d: Draw, size: nat)
    requires ValidDraw(d) && Fits(d, size)
    ensures forall t :: 0 <= t < size ==>
              InBounds(RunCell(d, t).0, RunCell(d, t).1) &&
              RunMatrix(d, size)[RunCell(d, t).0][RunCell(d, t).1] == 1
    ensures forall a, b :: InBounds(a, b) && RunMatrix(d, size)[a][b] == 1 ==>
              exists t :: 0 <= t < size && RunCell(d, t) == (a, b)
  {
    RunMatrixAt(d, size);
    forall a, b | InBounds(a, b) && RunMatrix(d, size)[a][b] == 1
      ensures exists t :: 0 <= t < size && RunCell(d, t) == (a, b)
    {
      var t := if d.horizontal then a - d.startX else b - d.startY;
      assert RunCell(d, t) == (a, b);
    }
  }

  /** An accepted attempt makes a well-formed ship with no hits. */
  lemma AcceptedShipOk(d: Draw, size: nat)
    requires ValidDraw(d) && Fits(d, size)
    ensures ShipOk(ShipView(size, RunMatrix(d, size), Zeros(Width, Height)))
  {
    var g := RunMatrix(d, size);
    RunMatrixAt(d, size);
    PlacementAccepted(d, size);
    FlattenValues(g, Width, Height, IsBit);
    SumOfBits(Flatten(g));
  }

  /** Some attempt of the sequence would be accepted. */
  predicate SomeFit(draws: seq<Draw>, size: nat) {
    exists i :: 0 <= i < |draws| && Fits(draws[i], size)
  }

  /** Ship.generate retries until an attempt is accepted: the attempt that
      sticks is the first one that fits, every earlier one being rejected. */
  function FirstFit(draws: seq<Draw>, size: nat): (k: nat)
    requires SomeFit(draws, size)
    ensures k < |draws| && Fits(draws[k], size)
    ensures forall j :: 0 <= j < k ==> !Fits(draws[j], size)
  {
    if Fits(draws[0], size) then 0
    else
      var i :| 0 <= i < |draws| && Fits(draws[i], size);
      assert Fits(draws[1..][i - 1], size);
      1 + FirstFit(draws[1..], size)
  }

  // ---------------------------------------------------------------------------
  // Ships

  /** What a Ship object holds: its size, its cells (shipMatrix) and the cells
      hit so far (isHitPoints). */
  datatype ShipView = ShipView(size: nat, cells: Matrix, hits: Matrix)

  /** Both matrices are 0/1 boards, the ship has exactly size cells, and every
      hit cell is one of them. */
  ghost predicate ShipOk(v: ShipView) {
    IsBoard(v.cells) && IsBoard(v.hits) &&
    Count(Flatten(v.cells), IsOne) == v.size &&
    forall a, b :: InBounds(a, b) ==>
      IsBit(v.cells[a][b]) && IsBit(v.hits[a][b]) && (v.hits[a][b] == 1 ==> v.cells[a][b] == 1)
  }

  /** Ship.shootAt: a shot on one of the ship's cells marks that cell hit. */
  function ShootShip(v: ShipView, x: nat, y: nat): (s: ShipView)
    requires IsBoard(v.cells) && IsBoard(v.hits) && InBounds(x, y)
    ensures s.size == v.size && s.cells == v.cells && IsBoard(s.hits)
  {
    SetShape(v.hits, Width, Height, x, y, 1);
    if v.cells[x][y] == 1 then v.(hits := Set(v.hits, x, y, 1)) else v
  }

  /** Ship.isAlive: the hit matrix sums to less than the size. */
  ghost predicate ShipAlive(v: ShipView) {
    Sum(Flatten(v.hits)) < v.size
  }

  /** The number of hit cells. */
  ghost function HitCount(v: ShipView): nat {
    Count(Flatten(v.hits), IsOne)
  }

  /** A ship is alive exactly when fewer than size of its cells are hit, and no
      more than size of them can be. */
  lemma AliveIffFewerHits(v: ShipView)
    requires ShipOk(v)
    ensures HitCount(v) <= v.size
    ensures ShipAlive(v) <==> HitCount(v) < v.size
  {
    FlattenValues(v.hits, Width, Height, IsBit);
    SumOfBits(Flatten(v.hits));
    CountFlattenPointwise(v.hits, v.cells, Width, Height, IsOne);
  }

  /** A shot hits the ship exactly when it lands on one of its cells; that
      cell is then hit, no other cell changes, and a repeat shot changes
      nothing. */
  lemma ShootShipEffect(v: ShipView, x: nat, y: nat)
    requires ShipOk(v) && InBounds(x, y)
    ensures ShipOk(ShootShip(v, x, y))
    ensures ShootShip(v, x, y).size == v.size && ShootShip(v, x, y).cells == v.cells
    ensures ShootShip(v, x, y).hits[x][y] == (if v.cells[x][y] == 1 then 1 else v.hits[x][y])
    ensures forall a, b :: InBounds(a, b) && (a != x || b != y) ==>
              ShootShip(v, x, y).hits[a][b] == v.hits[a][b]
    ensures v.hits[x][y] == 1 ==> ShootShip(v, x, y) == v
  {
    SetShape(v.hits, Width, Height, x, y, 1);
    if v.hits[x][y] == 1 {
      SetSame(v.hits, x, y);
    }
  }

  /** Once a ship is sunk, no shot revives it. */
  lemma SunkStaysSunk(v: ShipView, x: nat, y: nat)
    requires ShipOk(v) && InBounds(x, y) && !ShipAlive(v)
    ensures !ShipAlive(ShootShip(v, x, y))
  {
    if v.cells[x][y] == 1 {
      FlattenSet(v.hits, Width, x, y, 1);
      FlattenIndex(v.hits, Width, Height, x, y);
      SumUpdate(Flatten(v.hits), x * Height + y, 1);
    }
  }

  // ---------------------------------------------------------------------------
  // Fleets and the shot record

  /** The ship occupies [x, y]. */
  predicate Occupies(v: ShipView, x: int, y: int)
    requires IsBoard(v.cells) && InBounds(x, y)
  {
    v.cells[x][y] == 1
  }

  /** Some ship of the fleet occupies [x, y]. */
  ghost predicate Covered(fleet: seq<ShipView>, x: int, y: int)
    requires forall i :: 0 <= i < |fleet| ==> IsBoard(fleet[i].cells)
    requires InBounds(x, y)
  {
    exists i :: 0 <= i < |fleet| && Occupies(fleet[i], x, y)
  }

  ghost predicate FleetOk(fleet: seq<ShipView>) {
    forall i :: 0 <= i < |fleet| ==> ShipOk(fleet[i])
  }

  /** The cells covered by the first n + 1 ships are those covered by the
      first n and those of ship n. */
  lemma CoveredStep(fleet: seq<ShipView>, n: nat)
    requires FleetOk(fleet) && n < |fleet|
    ensures forall a, b :: InBounds(a, b) ==>
              (Covered(fleet[..n + 1], a, b) <==> Covered(fleet[..n], a, b) || Occupies(fleet[n], a, b))
  {
    forall a, b | InBounds(a, b)
      ensures Covered(fleet[..n + 1], a, b) <==> Covered(fleet[..n], a, b) || Occupies(fleet[n], a, b)
    {
      if Occupies(fleet[n], a, b) {
        assert fleet[..n + 1][n] == fleet[n];
      }
      if Covered(fleet[..n], a, b) {
        var j :| 0 <= j < n && Occupies(fleet[..n][j], a, b);
        assert fleet[..n + 1][j] == fleet[j];
      }
      if Covered(fleet[..n + 1], a, b) {
        var j :| 0 <= j < n + 1 && Occupies(fleet[..n + 1][j], a, b);
        if j < n {
          assert fleet[..n][j] == fleet[j];
        }
      }
    }
  }

  /** Every ship of the fleet takes the shot (Player.shootAt asks them all). */
  ghost function ShootFleet(fleet: seq<ShipView>, x: nat, y: nat): (r: seq<ShipView>)
    requires FleetOk(fleet) && InBounds(x, y)
    ensures |r| == |fleet|
  {
    seq(|fleet|, i requires 0 <= i < |fleet| => ShootShip(fleet[i], x, y))
  }

  /** views is fleet with its first i ships shot at [x, y]. */
  ghost predicate ShotPrefix(fleet: seq<ShipView>, views: seq<ShipView>, i: nat, x: nat, y: nat)
    requires FleetOk(fleet) && InBounds(x, y)
  {
    |views| == |fleet| && i <= |fleet| &&
    forall j :: 0 <= j < |fleet| ==> views[j] == if j < i then ShootShip(fleet[j], x, y) else fleet[j]
  }

  /** Shooting ship i extends the shot prefix by one. */
  lemma ShotPrefixStep(fleet: seq<ShipView>, views: seq<ShipView>, i: nat, x: nat, y: nat)
    requires FleetOk(fleet) && InBounds(x, y) && ShotPrefix(fleet, views, i, x, y) && i < |fleet|
    ensures ShipOk(views[i])
    ensures ShotPrefix(fleet, views[i := ShootShip(views[i], x, y)], i + 1, x, y)
  {
  }

  /** Once every ship is shot, the prefix is the whole shot fleet. */
  lemma ShotPrefixAll(fleet: seq<ShipView>, views: seq<ShipView>, x: nat, y: nat)
    requires FleetOk(fleet) && InBounds(x, y) && ShotPrefix(fleet, views, |fleet|, x, y)
    ensures views == ShootFleet(fleet, x, y)
  {
  }

  /** Player.shootAt's write to the shot record: 1 on a hit, -1 on a miss. */
  ghost function Resolve(shots: Matrix, fleet: seq<ShipView>, x: nat, y: nat): (m: Matrix)
    requires IsBoard(shots) && FleetOk(fleet) && InBounds(x, y)
    ensures IsBoard(m)
    ensures m[x][y] != 0 && (m[x][y] == 1 <==> Covered(fleet, x, y)) && (m[x][y] == -1 <==> !Covered(fleet, x, y))
    ensures forall a, b :: InBounds(a, b) && (a != x || b != y) ==> m[a][b] == shots[a][b]
  {
    SetShape(shots, Width, Height, x, y, if Covered(fleet, x, y) then 1 else -1);
    Set(shots, x, y, if Covered(fleet, x, y) then 1 else -1)
  }

  /** The shot record agrees with the fleet: each cell is 0 (not shot), 1
      (shot, some ship there) or -1 (shot, no ship there), and a ship's cell is
      marked hit exactly when it has been shot. */
  ghost predicate Consistent(fleet: seq<ShipView>, shots: Matrix) {
    FleetOk(fleet) && IsBoard(shots) &&
    (forall a, b :: InBounds(a, b) ==>
       (shots[a][b] == 0 || shots[a][b] == 1 || shots[a][b] == -1) &&
       (shots[a][b] != 0 ==> (shots[a][b] == 1 <==> Covered(fleet, a, b)))) &&
    (forall i, a, b :: 0 <= i < |fleet| && InBounds(a, b) ==>
       (fleet[i].hits[a][b] == 1 <==> shots[a][b] != 0 && fleet[i].cells[a][b] == 1))
  }

  lemma ShootFleetCells(fleet: seq<ShipView>, x: nat, y: nat)
    requires FleetOk(fleet) && InBounds(x, y)
    ensures FleetOk(ShootFleet(fleet, x, y))
    ensures forall i :: 0 <= i < |fleet| ==>
              ShootFleet(fleet, x, y)[i].cells == fleet[i].cells &&
              ShootFleet(fleet, x, y)[i].size == fleet[i].size
    ensures forall a, b :: InBounds(a, b) ==> (Covered(ShootFleet(fleet, x, y), a, b) <==> Covered(fleet, a, b))
  {
    forall i | 0 <= i < |fleet| { ShootShipEffect(fleet[i], x, y); }
  }

  /** A shot keeps the shot record consistent with the fleet. */
  lemma ShotKeepsConsistent(fleet: seq<ShipView>, shots: Matrix, x: nat, y: nat)
    requires Consistent(fleet, shots) && InBounds(x, y)
    ensures Consistent(ShootFleet(fleet, x, y), Resolve(shots, fleet, x, y))
  {
    var fleet', shots' := ShootFleet(fleet, x, y), Resolve(shots, fleet, x, y);
    ShootFleetCells(fleet, x, y);
    SetShape(shots, Width, Height, x, y, if Covered(fleet, x, y) then 1 else -1);
    forall i, a, b | 0 <= i < |fleet| && InBounds(a, b)
      ensures fleet'[i].hits[a][b] == 1 <==> shots'[a][b] != 0 && fleet'[i].cells[a][b] == 1
    {
      ShootShipEffect(fleet[i], x, y);
    }
  }

  /** A shot at a cell already shot changes neither the fleet nor the record. */
  lemma RepeatShotChangesNothing(fleet: seq<ShipView>, shots: Matrix, x: nat, y: nat)
    requires Consistent(fleet, shots) && InBounds(x, y) && shots[x][y] != 0
    ensures ShootFleet(fleet, x, y) == fleet
    ensures Resolve(shots, fleet, x, y) == shots
  {
    forall i | 0 <= i < |fleet|
      ensures ShootFleet(fleet, x, y)[i] == fleet[i]
    {
      ShootShipEffect(fleet[i], x, y);
    }
    SetSame(shots, x, y);
  }

  /** getNumberOfShotsFired: the number of nonzero cells of the record. */
  ghost function ShotCount(shots: Matrix): (n: nat)
    ensures n <= |Flatten(shots)|
  {
    CountBound(Flatten(shots), IsShot);
    Count(Flatten(shots), IsShot)
  }

  /** getHits: the number of cells recorded as hits. */
  ghost function HitTotal(shots: Matrix): nat {
    Count(Flatten(shots), IsOne)
  }

  /** No more shots are counted than there are cells, and no more hits than shots. */
  lemma ShotCountBound(shots: Matrix)
    requires IsBoard(shots)
    ensures HitTotal(shots) <= ShotCount(shots) <= CellCount
  {
    FlattenLength(shots, Width, Height);
    CountBound(Flatten(shots), IsShot);
    CountMonotone(Flatten(shots), IsOne, IsShot);
  }

  /** A shot at a cell not yet shot raises the count by one; a repeat shot leaves it. */
  lemma ShotCountStep(fleet: seq<ShipView>, shots: Matrix, x: nat, y: nat)
    requires IsBoard(shots) && FleetOk(fleet) && InBounds(x, y)
    ensures ShotCount(Resolve(shots, fleet, x, y)) ==
            if shots[x][y] == 0 then ShotCount(shots) + 1 else ShotCount(shots)
  {
    var v := if Covered(fleet, x, y) then 1 else -1;
    FlattenSet(shots, Width, x, y, v);
    FlattenIndex(shots, Width, Height, x, y);
    if shots[x][y] == 0 {
      CountUpdateGain(Flatten(shots), x * Height + y, v, IsShot);
    } else {
      CountUpdateSame(Flatten(shots), x * Height + y, v, IsShot);
    }
  }

  /** While fewer than all cells are shot, some cell (x, y) of the board is unshot. */
  lemma UnshotCellExists(shots: Matrix) returns (k: nat)
    requires IsBoard(shots) && ShotCount(shots) < CellCount
    ensures k < CellCount && InBounds(Decode(k).0, Decode(k).1)
    ensures shots[Decode(k).0][Decode(k).1] == 0
  {
    FlattenLength(shots, Width, Height);
    k := CountWitness(Flatten(shots), IsShot);
    DecodeInBounds(k);
    FlattenIndex(shots, Width, Height, Decode(k).0, Decode(k).1);
  }

  /** Player.shipsAlive: the number of ships still alive. */
  ghost function AliveCount(fleet: seq<ShipView>): (n: nat)
    ensures n <= |fleet|
  {
    if fleet == [] then 0
    else AliveCount(fleet[..|fleet| - 1]) + (if ShipAlive(fleet[|fleet| - 1]) then 1 else 0)
  }

  /** Player.stillPlaying: some ship is alive and fewer shots than cells are counted. */
  ghost predicate Playing(fleet: seq<ShipView>, shots: Matrix) {
    AliveCount(fleet) > 0 && ShotCount(shots) < CellCount
  }

  /** No ship is alive exactly when the alive count is zero. */
  lemma {:induction false} AliveCountZero(fleet: seq<ShipView>)
    ensures AliveCount(fleet) <= |fleet|
    ensures AliveCount(fleet) == 0 <==> forall i :: 0 <= i < |fleet| ==> !ShipAlive(fleet[i])
  {
    if fleet != [] {
      var init := fleet[..|fleet| - 1];
      AliveCountZero(init);
      assert forall i :: 0 <= i < |init| ==> init[i] == fleet[i];
    }
  }

  /** At the start of a game every ship of a non-empty fleet is unhit, so the
      player is playing. */
  lemma FreshIsPlaying(fleet: seq<ShipView>, shots: Matrix)
    requires Fresh(fleet, shots) && fleet != []
    requires forall i :: 0 <= i < |fleet| ==> fleet[i].size > 0
    ensures Playing(fleet, shots)
  {
    var z := Zeros(Width, Height);
    FlattenValues(z, Width, Height, v => v == 0);
    ZeroSum(Flatten(z));
    CountNone(Flatten(z));
    assert ShipAlive(fleet[0]);
    AliveCountZero(fleet);
  }

  lemma {:induction false} AliveCountShoot(fleet: seq<ShipView>, x: nat, y: nat)
    requires FleetOk(fleet) && InBounds(x, y)
    ensures AliveCount(ShootFleet(fleet, x, y)) <= AliveCount(fleet)
  {
    if fleet != [] {
      var n := |fleet|;
      var init := fleet[..n - 1];
      assert FleetOk(init);
      assert ShootFleet(fleet, x, y)[..n - 1] == ShootFleet(init, x, y);
      AliveCountShoot(init, x, y);
      if !ShipAlive(fleet[n - 1]) { SunkStaysSunk(fleet[n - 1], x, y); }
    }
  }

  /** A player who has stopped playing stays stopped, whatever is shot. */
  lemma StoppedStaysStopped(fleet: seq<ShipView>, shots: Matrix, x: nat, y: nat)
    requires Consistent(fleet, shots) && InBounds(x, y) && !Playing(fleet, shots)
    ensures !Playing(ShootFleet(fleet, x, y), Resolve(shots, fleet, x, y))
  {
    AliveCountShoot(fleet, x, y);
    ShotCountStep(fleet, shots, x, y);
  }

  // ---------------------------------------------------------------------------
  // Histories of shots

  /** The fleet and record after the given shots, in order. */
  ghost function Replay(fleet: seq<ShipView>, shots: Matrix, targets: seq<(nat, nat)>): (r: (seq<ShipView>, Matrix))
    requires FleetOk(fleet) && IsBoard(shots)
    requires forall j :: 0 <= j < |targets| ==> InBounds(targets[j].0, targets[j].1)
    ensures FleetOk(r.0) && IsBoard(r.1) && |r.0| == |fleet|
    ensures forall i :: 0 <= i < |fleet| ==> r.0[i].cells == fleet[i].cells
  {
    if targets == [] then (fleet, shots)
    else
      var before := Replay(fleet, shots, targets[..|targets| - 1]);
      var t := targets[|targets| - 1];
      ShootFleetCells(before.0, t.0, t.1);
      SetShape(before.1, Width, Height, t.0, t.1, if Covered(before.0, t.0, t.1) then 1 else -1);
      (ShootFleet(before.0, t.0, t.1), Resolve(before.1, before.0, t.0, t.1))
  }

  /** A fleet with no hits yet, facing an empty shot record. */
  ghost predicate Fresh(fleet: seq<ShipView>, shots: Matrix) {
    FleetOk(fleet) && shots == Zeros(Width, Height) &&
    forall i :: 0 <= i < |fleet| ==> fleet[i].hits == Zeros(Width, Height)
  }

  /** A fresh record counts no shot. */
  lemma FreshNoShots(fleet: seq<ShipView>, shots: Matrix)
    requires Fresh(fleet, shots)
    ensures ShotCount(shots) == 0
  {
    FlattenValues(shots, Width, Height, IsZero);
    CountNone(Flatten(shots));
  }

  predicate IsZero(v: int) { v == 0 }

  /** A fresh fleet and record agree. */
  lemma FreshConsistent(fleet: seq<ShipView>, shots: Matrix)
    requires Fresh(fleet, shots)
    ensures Consistent(fleet, shots)
  {
  }

  /** Shots never move a ship: the cells covered after a replay are those covered before. */
  lemma ReplayCovered(fleet: seq<ShipView>, shots: Matrix, targets: seq<(nat, nat)>)
    requires FleetOk(fleet) && IsBoard(shots)
    requires forall j :: 0 <= j < |targets| ==> InBounds(targets[j].0, targets[j].1)
    ensures forall a, b :: InBounds(a, b) ==>
              (Covered(Replay(fleet, shots, targets).0, a, b) <==> Covered(fleet, a, b))
  {
    var r := Replay(fleet, shots, targets);
    forall a, b | InBounds(a, b) && Covered(fleet, a, b)
      ensures Covered(r.0, a, b)
    {
      var i :| 0 <= i < |fleet| && Occupies(fleet[i], a, b);
      assert Occupies(r.0[i], a, b);
    }
  }

  /** Over any sequence of shots from a fresh start, the record stays
      consistent with the fleet. */
  lemma {:induction false} ReplayConsistent(fleet: seq<ShipView>, shots: Matrix, targets: seq<(nat, nat)>)
    requires Fresh(fleet, shots)
    requires forall j :: 0 <= j < |targets| ==> InBounds(targets[j].0, targets[j].1)
    ensures Consistent(Replay(fleet, shots, targets).0, Replay(fleet, shots, targets).1)
  {
    if targets != [] {
      var prefix := targets[..|targets| - 1];
      var t := targets[|targets| - 1];
      ReplayConsistent(fleet, shots, prefix);
      var before := Replay(fleet, shots, prefix);
      ShotKeepsConsistent(before.0, before.1, t.0, t.1);
    }
  }

  /** Over any sequence of shots from a fresh start, a record cell is 0 exactly
      when it was never shot, 1 when shot and occupied by some ship, and -1
      when shot and free. */
  lemma {:induction false} ReplayRecord(fleet: seq<ShipView>, shots: Matrix, targets: seq<(nat, nat)>)
    requires Fresh(fleet, shots)
    requires forall j :: 0 <= j < |targets| ==> InBounds(targets[j].0, targets[j].1)
    ensures forall a, b :: InBounds(a, b) ==>
              var rec := Replay(fleet, shots, targets).1;
              (rec[a][b] == 0 <==> (a, b) !in targets) &&
              (rec[a][b] == 1 <==> (a, b) in targets && Covered(fleet, a, b)) &&
              (rec[a][b] == -1 <==> (a, b) in targets && !Covered(fleet, a, b))
  {
    if targets != [] {
      var prefix := targets[..|targets| - 1];
      var t := targets[|targets| - 1];
      assert targets == prefix + [t];
      ReplayRecord(fleet, shots, prefix);
      ReplayCovered(fleet, shots, prefix);
      var before := Replay(fleet, shots, prefix);
      var v := if Covered(before.0, t.0, t.1) then 1 else -1;
      SetShape(before.1, Width, Height, t.0, t.1, v);
      var rec := Replay(fleet, shots, targets).1;
      assert rec == Set(before.1, t.0, t.1, v);
      forall a, b | InBounds(a, b)
        ensures (rec[a][b] == 0 <==> (a, b) !in targets) &&
                (rec[a][b] == 1 <==> (a, b) in targets && Covered(fleet, a, b)) &&
                (rec[a][b] == -1 <==> (a, b) in targets && !Covered(fleet, a, b))
      {
        assert (a, b) in targets <==> (a, b) in prefix || (a, b) == t;
      }
    }
  }

  /** Over any sequence of shots from a fresh start, the shot count is the
      number of distinct cells shot. */
  lemma {:induction false} ReplayCount(fleet: seq<ShipView>, shots: Matrix, targets: seq<(nat, nat)>)
    requires Fresh(fleet, shots)
    requires forall j :: 0 <= j < |targets| ==> InBounds(targets[j].0, targets[j].1)
    ensures ShotCount(Replay(fleet, shots, targets).1) == |Distinct(targets)|
  {
    if targets == [] {
      FlattenValues(shots, Width, Height, v => v == 0);
      CountNone(Flatten(shots));
    } else {
      var prefix := targets[..|targets| - 1];
      var t := targets[|targets| - 1];
      ReplayCount(fleet, shots, prefix);
      var before := Replay(fleet, shots, prefix);
      ShotCountStep(before.0, before.1, t.0, t.1);
      ReplayUnshot(fleet, shots, prefix, t);
      assert targets == prefix + [t];
      DistinctSnoc(prefix, t);
      assert Replay(fleet, shots, targets).1 == Resolve(before.1, before.0, t.0, t.1);
    }
  }

  /** The set of cells appearing in a sequence of shots. */
  function Distinct(targets: seq<(nat, nat)>): set<(nat, nat)> {
    set t | t in targets
  }

  lemma DistinctSnoc(prefix: seq<(nat, nat)>, t: (nat, nat))
    ensures Distinct(prefix + [t]) == Distinct(prefix) + {t}
    ensures |Distinct(prefix + [t])| == |Distinct(prefix)| + (if t in prefix then 0 else 1)
  {
    assert Distinct(prefix + [t]) == Distinct(prefix) + {t};
  }

  lemma ReplayUnshot(fleet: seq<ShipView>, shots: Matrix, prefix: seq<(nat, nat)>, t: (nat, nat))
    requires Fresh(fleet, shots) && InBounds(t.0, t.1)
    requires forall j :: 0 <= j < |prefix| ==> InBounds(prefix[j].0, prefix[j].1)
    ensures Replay(fleet, shots, prefix).1[t.0][t.1] == 0 <==> t !in prefix
  {
    ReplayRecord(fleet, shots, prefix);
  }

  lemma {:induction false} CountNone(s: seq<int>)
    requires forall k :: 0 <= k < |s| ==> s[k] == 0
    ensures Count(s, IsShot) == 0
  {
    if s != [] { CountNone(s[1..]); }
  }
}
