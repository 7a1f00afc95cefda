/** The targeting strategies: each turns a player's flattened shot record into
    one score per cell. SeekAI scores the unshot cells next to a recorded hit;
    RandomSeekAI and SmartSeekAI fall back to random scores or to a trained
    guess model when there is no such cell. */
module AIModels {
  import opened Grid

  /** The four playing strategies: random, seek, seek falling back to random,
      and seek falling back to a trained guess model. Each seek strategy
      carries its board dimensions. The guess model is any
      function from a flattened shot record to a score vector. */
  datatype Strategy =
    | RandomAI
    | SeekAI(mapSizeX: nat, mapSizeY: nat)
    | RandomSeekAI(mapSizeX: nat, mapSizeY: nat)
    | SmartSeekAI(mapSizeX: nat, mapSizeY: nat, guess: seq<int> -> seq<int>)

  // ---------------------------------------------------------------------------
  // What seek computes

  /** Cell [a, b] of the w x h record g has an orthogonal neighbour on the board
      whose value is exactly 1. */
  predicate NextToHit(g: Matrix, w: nat, h: nat, a: nat, b: nat)
    requires IsMatrix(g, w, h) && a < w && b < h
  {
    (b >= 1 && g[a][b - 1] == 1) || (b + 1 < h && g[a][b + 1] == 1) ||
    (a >= 1 && g[a - 1][b] == 1) || (a + 1 < w && g[a + 1][b] == 1)
  }

  /** Whether a record cell was never shot: 1 when it holds 0, that is when it
      is neither a hit nor a miss, and 0 otherwise. */
  function NotShot(v: int): int {
    if v > 0 || v < 0 then 0 else 1
  }

  /** newTargets before flattening: 1 on unshot cells next to a hit, 0 elsewhere. */
  function SeekMatrix(g: Matrix, w: nat, h: nat): (t: Matrix)
    requires IsMatrix(g, w, h)
    ensures IsMatrix(t, w, h)
  {
    seq(w, a requires 0 <= a < w =>
      seq(h, b requires 0 <= b < h => if NextToHit(g, w, h, a, b) then NotShot(g[a][b]) else 0))
  }

  /** seek(input): the flattened targets for a flattened w x h record. */
  function SeekScores(input: seq<int>, w: nat, h: nat): (t: seq<int>)
    requires |input| == w * h
    ensures |t| == w * h
  {
    FlattenLength(SeekMatrix(Reshape(input, w, h), w, h), w, h);
    Flatten(SeekMatrix(Reshape(input, w, h), w, h))
  }

  /** The same condition read directly on the flat record: cell [a, b] has a
      neighbour on the board whose entry is exactly 1. */
  predicate FlatNextToHit(input: seq<int>, w: nat, h: nat, a: nat, b: nat)
    requires |input| == w * h && a < w && b < h
  {
    (b >= 1 && At(input, w, h, a, b - 1) == 1) || (b + 1 < h && At(input, w, h, a, b + 1) == 1) ||
    (a >= 1 && At(input, w, h, a - 1, b) == 1) || (a + 1 < w && At(input, w, h, a + 1, b) == 1)
  }

  /** Cell [a, b] of the flat record is unshot and next to a hit. */
  predicate Target(input: seq<int>, w: nat, h: nat, a: nat, b: nat)
    requires |input| == w * h && a < w && b < h
  {
    At(input, w, h, a, b) == 0 && FlatNextToHit(input, w, h, a, b)
  }

  /** Some unshot cell of the record is next to a hit. */
  ghost predicate SomeTarget(input: seq<int>, w: nat, h: nat)
    requires |input| == w * h
  {
    exists a: nat, b: nat :: a < w && b < h && Target(input, w, h, a, b)
  }

  // ---------------------------------------------------------------------------
  // The imperative seek

  /** The two cells (a, b) and (x, y) are orthogonal neighbours. */
  predicate Adjacent(a: int, b: int, x: int, y: int) {
    (a == x && (b + 1 == y || b == y + 1)) || (b == y && (a + 1 == x || a == x + 1))
  }

  /** Cell (c, d) comes before cell (x, y) in the row-major scan. */
  predicate Before(c: int, d: int, x: int, y: int) {
    c < x || (c == x && d < y)
  }

  /** Cell [a, b] has a neighbour holding 1 among the cells scanned before (x, y). */
  predicate MarkedBefore(g: Matrix, w: nat, h: nat, x: nat, y: nat, a: nat, b: nat)
    requires IsMatrix(g, w, h) && a < w && b < h
  {
    (b >= 1 && g[a][b - 1] == 1 && Before(a, b - 1, x, y)) ||
    (b + 1 < h && g[a][b + 1] == 1 && Before(a, b + 1, x, y)) ||
    (a >= 1 && g[a - 1][b] == 1 && Before(a - 1, b, x, y)) ||
    (a + 1 < w && g[a + 1][b] == 1 && Before(a + 1, b, x, y))
  }

  /** The four guarded writes of the scan at a cell holding 1. */
  method MarkAround(m: array2<int>, x: nat, y: nat)
    requires x < m.Length0 && y < m.Length1
    modifies m
    ensures forall a, b :: 0 <= a < m.Length0 && 0 <= b < m.Length1 ==>
              m[a, b] == if Adjacent(a, b, x, y) then 1 else old(m[a, b])
  {
    // above
    if y - 1 >= 0 {
      m[x, y - 1] := 1;
    }
    // below
    if y + 1 < m.Length1 {
      m[x, y + 1] := 1;
    }
    // left
    if x - 1 >= 0 {
      m[x - 1, y] := 1;
    }
    // right
    if x + 1 < m.Length0 {
      m[x + 1, y] := 1;
    }
  }

  /** One step of the scan: the marks cover the hits before the next cell. */
  lemma ScanStep(g: Matrix, w: nat, h: nat, x: nat, y: nat, a: nat, b: nat)
    requires IsMatrix(g, w, h) && x < w && y < h && a < w && b < h
    ensures MarkedBefore(g, w, h, x, y + 1, a, b) <==>
            MarkedBefore(g, w, h, x, y, a, b) || (g[x][y] == 1 && Adjacent(a, b, x, y))
  {
  }

  /** Finishing a row of the scan is starting the next one. */
  lemma ScanRow(g: Matrix, w: nat, h: nat, x: nat, a: nat, b: nat)
    requires IsMatrix(g, w, h) && x < w && a < w && b < h
    ensures MarkedBefore(g, w, h, x, h, a, b) <==> MarkedBefore(g, w, h, x + 1, 0, a, b)
  {
  }

  /** The marks of the whole scan are the cells next to a hit. */
  lemma ScanDone(g: Matrix, w: nat, h: nat, a: nat, b: nat)
    requires IsMatrix(g, w, h) && a < w && b < h
    ensures MarkedBefore(g, w, h, w, 0, a, b) <==> NextToHit(g, w, h, a, b)
  {
  }

  /** The nested scan writing 1 around every cell equal to 1 (surroundingCellsOfShotMap). */
  method MarkNeighbours(g: Matrix, w: nat, h: nat) returns (m: array2<int>)
    requires IsMatrix(g, w, h)
    ensures fresh(m) && m.Length0 == w && m.Length1 == h
    ensures forall a, b :: 0 <= a < w && 0 <= b < h ==>
              m[a, b] == if NextToHit(g, w, h, a, b) then 1 else 0
  {
    m := new int[w, h]((a, b) => 0);
    var x := 0;
    while x < w
      invariant 0 <= x <= w
      invariant forall a, b :: 0 <= a < w && 0 <= b < h ==>
                  m[a, b] == if MarkedBefore(g, w, h, x, 0, a, b) then 1 else 0
    {
      var y := 0;
      while y < h
        invariant 0 <= y <= h
        invariant forall a, b :: 0 <= a < w && 0 <= b < h ==>
                    m[a, b] == if MarkedBefore(g, w, h, x, y, a, b) then 1 else 0
      {
        if g[x][y] == 1 {
          MarkAround(m, x, y);
        }
        forall a, b | 0 <= a < w && 0 <= b < h {
          ScanStep(g, w, h, x, y, a, b);
        }
        y := y + 1;
      }
      forall a, b | 0 <= a < w && 0 <= b < h {
        ScanRow(g, w, h, x, a, b);
      }
      x := x + 1;
    }
    forall a, b | 0 <= a < w && 0 <= b < h {
      ScanDone(g, w, h, a, b);
    }
  }

  /** SeekAI.seek: mark the neighbours of the hits, mask out the cells already
      shot and flatten. The single row of the returned 1 x (w * h) array. */
  method Seek(w: nat, h: nat, input: seq<int>) returns (newTargets: seq<int>)
    requires |input| == w * h
    ensures newTargets == SeekScores(input, w, h)
  {
    var shotMap := Reshape(input, w, h);
    var surroundingCellsOfShotMap := MarkNeighbours(shotMap, w, h);
    forall a, b | 0 <= a < w && 0 <= b < h {
      surroundingCellsOfShotMap[a, b] := surroundingCellsOfShotMap[a, b] * NotShot(shotMap[a][b]);
    }
    newTargets := Flat(surroundingCellsOfShotMap);
    FlatMirror(surroundingCellsOfShotMap, SeekMatrix(shotMap, w, h));
  }

  // ---------------------------------------------------------------------------
  // What seek promises

  /** seek yields w * h entries, each 0 or 1. */
  lemma SeekBits(input: seq<int>, w: nat, h: nat)
    requires |input| == w * h
    ensures |SeekScores(input, w, h)| == w * h
    ensures forall k :: 0 <= k < w * h ==> IsBit(SeekScores(input, w, h)[k])
  {
    FlattenValues(SeekMatrix(Reshape(input, w, h), w, h), w, h, IsBit);
  }

  /** Cell [a, b] of seek is 1 exactly when that cell holds 0 and some
      neighbour on the board holds exactly 1; otherwise it is 0. */
  lemma SeekCell(input: seq<int>, w: nat, h: nat, a: nat, b: nat)
    requires |input| == w * h && a < w && b < h
    ensures At(SeekScores(input, w, h), w, h, a, b) == if Target(input, w, h, a, b) then 1 else 0
  {
    var g := Reshape(input, w, h);
    AtFlatten(SeekMatrix(g, w, h), w, h, a, b);
    AtReshape(input, w, h, a, b);
    NeighboursAgree(input, w, h, a, b);
    assert SeekMatrix(g, w, h)[a][b] == if NextToHit(g, w, h, a, b) then NotShot(g[a][b]) else 0;
  }

  /** Reading the neighbours on the reshaped matrix or on the flat record agrees. */
  lemma NeighboursAgree(input: seq<int>, w: nat, h: nat, a: nat, b: nat)
    requires |input| == w * h && a < w && b < h
    ensures NextToHit(Reshape(input, w, h), w, h, a, b) <==> FlatNextToHit(input, w, h, a, b)
  {
    var g := Reshape(input, w, h);
    var up := b >= 1 && g[a][b - 1] == 1;
    var down := b + 1 < h && g[a][b + 1] == 1;
    var left := a >= 1 && g[a - 1][b] == 1;
    var right := a + 1 < w && g[a + 1][b] == 1;
    if b >= 1 { AtReshape(input, w, h, a, b - 1); }
    assert up <==> b >= 1 && At(input, w, h, a, b - 1) == 1;
    if b + 1 < h { AtReshape(input, w, h, a, b + 1); }
    assert down <==> b + 1 < h && At(input, w, h, a, b + 1) == 1;
    if a >= 1 { AtReshape(input, w, h, a - 1, b); }
    assert left <==> a >= 1 && At(input, w, h, a - 1, b) == 1;
    if a + 1 < w { AtReshape(input, w, h, a + 1, b); }
    assert right <==> a + 1 < w && At(input, w, h, a + 1, b) == 1;
  }

  /** The same fact for a flat index k, the entry of some cell [a, b]. */
  lemma SeekEntry(input: seq<int>, w: nat, h: nat, k: nat) returns (a: nat, b: nat)
    requires |input| == w * h && k < w * h
    ensures a < w && b < h && input[k] == At(input, w, h, a, b)
    ensures SeekScores(input, w, h)[k] == if Target(input, w, h, a, b) then 1 else 0
  {
    a, b := Unflatten(w, h, k);
    SeekCell(input, w, h, a, b);
  }

  /** A cell already shot, hit or miss, scores 0 even next to a hit. */
  lemma SeekSkipsShotCells(input: seq<int>, w: nat, h: nat, k: nat)
    requires |input| == w * h && k < w * h && input[k] != 0
    ensures SeekScores(input, w, h)[k] == 0
  {
    var a, b := SeekEntry(input, w, h, k);
  }

  /** Without any entry equal to 1, seek scores every cell 0. */
  lemma SeekWithoutHits(input: seq<int>, w: nat, h: nat)
    requires |input| == w * h && forall k :: 0 <= k < |input| ==> input[k] != 1
    ensures SeekScores(input, w, h) == Zeros1(w * h)
  {
    forall k | 0 <= k < w * h
      ensures SeekScores(input, w, h)[k] == 0
    {
      var a, b := SeekEntry(input, w, h, k);
      NoHitNoTarget(input, w, h, a, b);
    }
  }

  lemma NoHitNoTarget(input: seq<int>, w: nat, h: nat, a: nat, b: nat)
    requires |input| == w * h && a < w && b < h
    requires forall k :: 0 <= k < |input| ==> input[k] != 1
    ensures !Target(input, w, h, a, b)
  {
    if b >= 1 { AtEntry(input, w, h, a, b - 1); }
    if b + 1 < h { AtEntry(input, w, h, a, b + 1); }
    if a >= 1 { AtEntry(input, w, h, a - 1, b); }
    if a + 1 < w { AtEntry(input, w, h, a + 1, b); }
  }

  /** A vector of n zeros. */
  function Zeros1(n: nat): (z: seq<int>)
    ensures |z| == n && forall k :: 0 <= k < n ==> z[k] == 0
  {
    seq(n, k => 0)
  }

  /** The seek sum is at most 0 exactly when no unshot cell is next to a hit. */
  lemma SeekSumZero(input: seq<int>, w: nat, h: nat)
    requires |input| == w * h
    ensures Sum(SeekScores(input, w, h)) <= 0 <==> !SomeTarget(input, w, h)
  {
    if SomeTarget(input, w, h) {
      var a: nat, b: nat :| a < w && b < h && Target(input, w, h, a, b);
      TargetScores(input, w, h, a, b);
    } else {
      NoTargetScores(input, w, h);
    }
  }

  lemma TargetScores(input: seq<int>, w: nat, h: nat, a: nat, b: nat)
    requires |input| == w * h && a < w && b < h && Target(input, w, h, a, b)
    ensures Sum(SeekScores(input, w, h)) > 0
  {
    var t := SeekScores(input, w, h);
    SeekBits(input, w, h);
    SeekCell(input, w, h, a, b);
    AtEntry(t, w, h, a, b);
    SumOfBitsPositive(t, a * h + b);
  }

  lemma NoTargetScores(input: seq<int>, w: nat, h: nat)
    requires |input| == w * h && !SomeTarget(input, w, h)
    ensures Sum(SeekScores(input, w, h)) <= 0
  {
    var t := SeekScores(input, w, h);
    forall k | 0 <= k < |t|
      ensures t[k] == 0
    {
      var a, b := SeekEntry(input, w, h, k);
      assert !Target(input, w, h, a, b);
    }
    SumOfBitsZero(t);
  }

  /** On a 5 x 5 record whose only 1 is at (2, 2), seek marks exactly (1, 2),
      (3, 2), (2, 1) and (2, 3). */
  lemma SeekExample()
    ensures forall a: nat, b: nat :: a < 5 && b < 5 ==>
              At(SeekScores(SingleHit5(), 5, 5), 5, 5, a, b) ==
              if (a == 1 && b == 2) || (a == 3 && b == 2) || (a == 2 && b == 1) || (a == 2 && b == 3) then 1 else 0
  {
    forall a: nat, b: nat | a < 5 && b < 5
      ensures At(SeekScores(SingleHit5(), 5, 5), 5, 5, a, b) ==
              if (a == 1 && b == 2) || (a == 3 && b == 2) || (a == 2 && b == 1) || (a == 2 && b == 3) then 1 else 0
    {
      SeekCell(SingleHit5(), 5, 5, a, b);
      assert forall c: nat, d: nat :: c < 5 && d < 5 ==>
               (At(SingleHit5(), 5, 5, c, d) == 1 <==> c == 2 && d == 2);
    }
  }

  /** The flat 5 x 5 record with a single 1, at (2, 2). */
  function SingleHit5(): (v: seq<int>)
    ensures |v| == 25
  {
    seq(25, k => if k == 12 then 1 else 0)
  }

  // ---------------------------------------------------------------------------
  // predict

  /** Random scoring: one arbitrary score for every input entry, taken from
      the stream the caller supplies. */
  function RandomScores(input: seq<int>, noise: nat -> int): (r: seq<int>)
    ensures |r| == |input|
  {
    seq(|input|, k requires 0 <= k < |input| => noise(k))
  }

  /** The record length each strategy accepts: seek reshapes its input to
      its board dimensions, so only a record of exactly that many entries. */
  predicate Accepts(s: Strategy, n: nat) {
    s.RandomAI? || s.mapSizeX * s.mapSizeY == n
  }

  /** The guess model of a SmartSeekAI returns a score vector as long as its input. */
  ghost predicate KeepsShape(s: Strategy) {
    s.SmartSeekAI? ==> forall v: seq<int> :: |s.guess(v)| == |v|
  }

  /** What predict returns on a flattened record. */
  function Prediction(s: Strategy, input: seq<int>, noise: nat -> int): (r: seq<int>)
    requires Accepts(s, |input|)
    ensures KeepsShape(s) ==> |r| == |input|
  {
    match s
    case RandomAI => RandomScores(input, noise)
    case SeekAI(w, h) => SeekScores(input, w, h)
    case RandomSeekAI(w, h) =>
      var newTargets := SeekScores(input, w, h);
      if Sum(newTargets) <= 0 then RandomScores(input, noise) else newTargets
    case SmartSeekAI(w, h, guess) =>
      var newTargets := SeekScores(input, w, h);
      if Sum(newTargets) <= 0 then guess(input) else newTargets
  }

  /** A strategy's answer for one flattened shot record: its row of scores. */
  method Predict(s: Strategy, input: seq<int>, noise: nat -> int) returns (output: seq<int>)
    requires Accepts(s, |input|)
    ensures output == Prediction(s, input, noise)
  {
    match s
    case RandomAI =>
      output := RandomScores(input, noise);
    case SeekAI(w, h) =>
      output := Seek(w, h, input);
    case RandomSeekAI(w, h) =>
      var newTargets := Seek(w, h, input);
      if Sum(newTargets) <= 0 {
        output := RandomScores(input, noise);
      } else {
        output := newTargets;
      }
    case SmartSeekAI(w, h, guess) =>
      var newTargets := Seek(w, h, input);
      if Sum(newTargets) <= 0 {
        output := guess(input);
      } else {
        output := newTargets;
      }
  }

  /** Every strategy scores each cell of the record once. */
  lemma PredictionShape(s: Strategy, input: seq<int>, noise: nat -> int)
    requires Accepts(s, |input|) && KeepsShape(s)
    ensures |Prediction(s, input, noise)| == |input|
  {
  }

  /** RandomSeekAI returns the seek scores while some unshot cell is next to a
      hit, and random scores otherwise. */
  lemma RandomSeekFallback(w: nat, h: nat, input: seq<int>, noise: nat -> int)
    requires |input| == w * h
    ensures SomeTarget(input, w, h) ==> Prediction(RandomSeekAI(w, h), input, noise) == SeekScores(input, w, h)
    ensures !SomeTarget(input, w, h) ==> Prediction(RandomSeekAI(w, h), input, noise) == RandomScores(input, noise)
  {
    SeekSumZero(input, w, h);
  }

  /** SmartSeekAI returns the seek scores while some unshot cell is next to a
      hit, and exactly the guess model's scores of the same record otherwise. */
  lemma SmartSeekFallback(w: nat, h: nat, guess: seq<int> -> seq<int>, input: seq<int>, noise: nat -> int)
    requires |input| == w * h
    ensures SomeTarget(input, w, h) ==> Prediction(SmartSeekAI(w, h, guess), input, noise) == SeekScores(input, w, h)
    ensures !SomeTarget(input, w, h) ==> Prediction(SmartSeekAI(w, h, guess), input, noise) == guess(input)
  {
    SeekSumZero(input, w, h);
  }
}
