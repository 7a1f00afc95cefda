/** The board shared by every ship, player and strategy: a fixed 10 x 10 grid
    of integer cells indexed [x, y], its row-major flattening into a vector of
    100 entries (x * 10 + y), and the counting functions the game uses on it. */
module Grid {

  /** The board is ten cells wide and ten cells high. */
  const Width: nat := 10
  const Height: nat := 10
  /** Width * Height, the number of cells on the board. */
  const CellCount: nat := 100

  /** A matrix of integers as a sequence of rows: g[x][y]. */
  type Matrix = seq<seq<int>>

  predicate IsMatrix(g: Matrix, w: nat, h: nat) {
    |g| == w && forall a :: 0 <= a < w ==> |g[a]| == h
  }

  predicate IsBoard(g: Matrix) {
    IsMatrix(g, Width, Height)
  }

  predicate InBounds(x: int, y: int) {
    0 <= x < Width && 0 <= y < Height
  }

  /** A matrix of w rows of h zeros, the start of every board. */
  function Zeros(w: nat, h: nat): (g: Matrix)
    ensures IsMatrix(g, w, h)
    ensures forall a, b :: 0 <= a < w && 0 <= b < h ==> g[a][b] == 0
  {
    seq(w, a => seq(h, b => 0))
  }

  /** The matrix g with cell [x, y] replaced by v. */
  function Set(g: Matrix, x: nat, y: nat, v: int): Matrix
    requires x < |g| && y < |g[x]|
  {
    g[x := g[x][y := v]]
  }

  lemma SetShape(g: Matrix, w: nat, h: nat, x: nat, y: nat, v: int)
    requires IsMatrix(g, w, h) && x < w && y < h
    ensures IsMatrix(Set(g, x, y, v), w, h)
    ensures Set(g, x, y, v)[x][y] == v
    ensures forall a, b :: 0 <= a < w && 0 <= b < h && (a != x || b != y) ==> Set(g, x, y, v)[a][b] == g[a][b]
  {
  }

  /** Writing back the value already there changes nothing. */
  lemma SetSame(g: Matrix, x: nat, y: nat)
    requires x < |g| && y < |g[x]|
    ensures Set(g, x, y, g[x][y]) == g
  {
    assert g[x][y := g[x][y]] == g[x];
  }

  // ---------------------------------------------------------------------------
  // Row-major flattening (numpy's flatten and reshape)

  function Flatten(g: Matrix): seq<int> {
    if g == [] then [] else g[0] + Flatten(g[1..])
  }

  lemma {:induction false} FlattenLength(g: Matrix, w: nat, h: nat)
    requires IsMatrix(g, w, h)
    ensures |Flatten(g)| == w * h
  {
    if w > 0 {
      assert IsMatrix(g[1..], w - 1, h);
      FlattenLength(g[1..], w - 1, h);
      assert w * h == (w - 1) * h + h;
    }
  }

  /** Cell [a, b] of a w x h matrix is entry a * h + b of its flattening. */
  lemma {:induction false} FlattenIndex(g: Matrix, w: nat, h: nat, a: nat, b: nat)
    requires IsMatrix(g, w, h) && a < w && b < h
    ensures |Flatten(g)| == w * h && a * h + b < w * h
    ensures Flatten(g)[a * h + b] == g[a][b]
  {
    FlattenLength(g, w, h);
    assert IsMatrix(g[1..], w - 1, h);
    FlattenLength(g[1..], w - 1, h);
    assert w * h == (w - 1) * h + h;
    if a > 0 {
      FlattenIndex(g[1..], w - 1, h, a - 1, b);
      assert a * h + b == h + ((a - 1) * h + b);
      assert a * h + b < w * h;
    } else {
      assert h <= w * h;
    }
  }

  lemma {:induction false} FlattenAppend(g: Matrix, g': Matrix)
    ensures Flatten(g + g') == Flatten(g) + Flatten(g')
  {
    if g == [] {
      assert g + g' == g';
    } else {
      assert (g + g')[1..] == g[1..] + g';
      FlattenAppend(g[1..], g');
    }
  }

  /** Updating cell [x, y] of a matrix of w rows of Height cells updates entry
      x * Height + y of the flattening. */
  lemma {:induction false} FlattenSet(g: Matrix, w: nat, x: nat, y: nat, v: int)
    requires IsMatrix(g, w, Height) && x < w && y < Height
    ensures |Flatten(g)| == w * Height && x * Height + y < w * Height
    ensures Flatten(Set(g, x, y, v)) == Flatten(g)[x * Height + y := v]
  {
    FlattenLength(g, w, Height);
    if x == 0 {
      FlattenSetHead(g, y, v);
      UpdateLeft(g[0], Flatten(g[1..]), y, v);
    } else {
      assert IsMatrix(g[1..], w - 1, Height);
      FlattenSet(g[1..], w - 1, x - 1, y, v);
      FlattenSetTail(g, x, y, v);
      UpdateRight(g[0], Flatten(g[1..]), (x - 1) * Height + y, v);
    }
  }

  lemma FlattenSetHead(g: Matrix, y: nat, v: int)
    requires 0 < |g| && y < |g[0]|
    ensures Flatten(Set(g, 0, y, v)) == g[0][y := v] + Flatten(g[1..])
    ensures Flatten(g) == g[0] + Flatten(g[1..])
  {
    assert Set(g, 0, y, v)[1..] == g[1..];
  }

  lemma FlattenSetTail(g: Matrix, x: nat, y: nat, v: int)
    requires 0 < x < |g| && y < |g[x]|
    ensures Flatten(Set(g, x, y, v)) == g[0] + Flatten(Set(g[1..], x - 1, y, v))
    ensures Flatten(g) == g[0] + Flatten(g[1..])
  {
    assert Set(g, x, y, v)[1..] == Set(g[1..], x - 1, y, v);
  }

  lemma UpdateLeft(s: seq<int>, t: seq<int>, i: nat, v: int)
    requires i < |s|
    ensures (s + t)[i := v] == s[i := v] + t
  {
  }

  lemma UpdateRight(s: seq<int>, t: seq<int>, i: nat, v: int)
    requires i < |t|
    ensures (s + t)[|s| + i := v] == s + t[i := v]
  {
  }

  /** Reshaping: cut a vector of w * h entries into w rows of h entries. */
  function Reshape(v: seq<int>, w: nat, h: nat): (g: Matrix)
    requires |v| == w * h
    ensures IsMatrix(g, w, h)
    decreases w
  {
    if w == 0 then []
    else
      assert w * h == (w - 1) * h + h;
      [v[..h]] + Reshape(v[h..], w - 1, h)
  }

  lemma {:induction false} FlattenReshape(v: seq<int>, w: nat, h: nat)
    requires |v| == w * h
    ensures Flatten(Reshape(v, w, h)) == v
  {
    if w > 0 {
      assert w * h == (w - 1) * h + h;
      var g := Reshape(v, w, h);
      assert g[0] == v[..h] && g[1..] == Reshape(v[h..], w - 1, h);
      FlattenReshape(v[h..], w - 1, h);
      assert v == v[..h] + v[h..];
    }
  }

  /** Reshaping then reading [a, b] reads entry a * h + b. */
  lemma ReshapeIndex(v: seq<int>, w: nat, h: nat, a: nat, b: nat)
    requires |v| == w * h && a < w && b < h
    ensures a * h + b < |v| && Reshape(v, w, h)[a][b] == v[a * h + b]
  {
    FlattenReshape(v, w, h);
    FlattenIndex(Reshape(v, w, h), w, h, a, b);
  }

  /** Entry a * h + b of a flattened w x h matrix: its cell [a, b]. */
  function At(v: seq<int>, w: nat, h: nat, a: nat, b: nat): int
    requires |v| == w * h && a < w && b < h
  {
    IndexBound(w, h, a, b);
    v[a * h + b]
  }

  lemma IndexBound(w: nat, h: nat, a: nat, b: nat)
    requires a < w && b < h
    ensures a * h + b < w * h
  {
    assert (a + 1) * h <= w * h;
  }

  /** A flat index k below w * h is the entry of cell [k / h, k % h]. */
  lemma Unflatten(w: nat, h: nat, k: nat) returns (a: nat, b: nat)
    requires k < w * h
    ensures a < w && b < h && a * h + b == k
  {
    a, b := k / h, k % h;
  }

  lemma AtEntry(v: seq<int>, w: nat, h: nat, a: nat, b: nat)
    requires |v| == w * h && a < w && b < h
    ensures a * h + b < |v| && At(v, w, h, a, b) == v[a * h + b]
  {
    IndexBound(w, h, a, b);
  }

  lemma AtReshape(v: seq<int>, w: nat, h: nat, a: nat, b: nat)
    requires |v| == w * h && a < w && b < h
    ensures Reshape(v, w, h)[a][b] == At(v, w, h, a, b)
  {
    ReshapeIndex(v, w, h, a, b);
  }

  lemma AtFlatten(g: Matrix, w: nat, h: nat, a: nat, b: nat)
    requires IsMatrix(g, w, h) && a < w && b < h
    ensures |Flatten(g)| == w * h && At(Flatten(g), w, h, a, b) == g[a][b]
  {
    FlattenIndex(g, w, h, a, b);
  }

  // ---------------------------------------------------------------------------
  // Cell index coding on the 10 x 10 board

  /** Row-major index of cell (x, y). */
  function Encode(x: nat, y: nat): nat {
    x * Height + y
  }

  /** The turn driver's mapping from a flat cell index back to a board cell:
      the row is the quotient by the width and the column the remainder by
      the height; on this square board both divisors are 10. */
  function Decode(k: nat): (c: (nat, nat))
    ensures c.1 < Height
    ensures k < CellCount ==> c.0 < Width
  {
    (k / Width, k % Height)
  }

  lemma DecodeInBounds(k: nat)
    requires k < CellCount
    ensures InBounds(Decode(k).0, Decode(k).1)
    ensures Encode(Decode(k).0, Decode(k).1) == k
  {
  }

  lemma DecodeEncode(x: nat, y: nat)
    requires InBounds(x, y)
    ensures Encode(x, y) < CellCount && Decode(Encode(x, y)) == (x, y)
  {
  }

  // ---------------------------------------------------------------------------
  // Counting

  predicate IsShot(v: int) { v != 0 }
  predicate IsBit(v: int) { v == 0 || v == 1 }
  predicate IsOne(v: int) { v == 1 }

  /** Number of entries of s satisfying p. */
  function Count(s: seq<int>, p: int -> bool): nat {
    if s == [] then 0 else (if p(s[0]) then 1 else 0) + Count(s[1..], p)
  }

  /** The total of a vector's entries. */
  function Sum(s: seq<int>): int {
    if s == [] then 0 else s[0] + Sum(s[1..])
  }

  lemma {:induction false} CountBound(s: seq<int>, p: int -> bool)
    ensures Count(s, p) <= |s|
  {
    if s != [] { CountBound(s[1..], p); }
  }

  lemma {:induction false} CountAppend(s: seq<int>, t: seq<int>, p: int -> bool)
    ensures Count(s + t, p) == Count(s, p) + Count(t, p)
  {
    if s == [] {
      assert s + t == t;
    } else {
      assert (s + t)[1..] == s[1..] + t;
      CountAppend(s[1..], t, p);
    }
  }

  lemma {:induction false} SumAppend(s: seq<int>, t: seq<int>)
    ensures Sum(s + t) == Sum(s) + Sum(t)
  {
    if s == [] {
      assert s + t == t;
    } else {
      assert (s + t)[1..] == s[1..] + t;
      SumAppend(s[1..], t);
    }
  }

  /** Replacing an entry that fails p by one that satisfies it adds exactly one. */
  lemma {:induction false} CountUpdateGain(s: seq<int>, k: nat, v: int, p: int -> bool)
    requires k < |s| && !p(s[k]) && p(v)
    ensures Count(s[k := v], p) == Count(s, p) + 1
  {
    if k > 0 {
      assert s[k := v][1..] == s[1..][k - 1 := v];
      CountUpdateGain(s[1..], k - 1, v, p);
    } else {
      assert s[k := v][1..] == s[1..];
    }
  }

  /** Replacing an entry by one with the same verdict under p keeps the count. */
  lemma {:induction false} CountUpdateSame(s: seq<int>, k: nat, v: int, p: int -> bool)
    requires k < |s| && p(s[k]) == p(v)
    ensures Count(s[k := v], p) == Count(s, p)
  {
    if k > 0 {
      assert s[k := v][1..] == s[1..][k - 1 := v];
      CountUpdateSame(s[1..], k - 1, v, p);
    } else {
      assert s[k := v][1..] == s[1..];
    }
  }

  /** Replacing one entry changes the sum by the difference. */
  lemma {:induction false} SumUpdate(s: seq<int>, k: nat, v: int)
    requires k < |s|
    ensures Sum(s[k := v]) == Sum(s) - s[k] + v
  {
    if k > 0 {
      assert s[k := v][1..] == s[1..][k - 1 := v];
      SumUpdate(s[1..], k - 1, v);
    } else {
      assert s[k := v][1..] == s[1..];
    }
  }

  /** If fewer than |s| entries satisfy p, some entry fails it. */
  lemma {:induction false} CountWitness(s: seq<int>, p: int -> bool) returns (k: nat)
    requires Count(s, p) < |s|
    ensures k < |s| && !p(s[k])
  {
    if p(s[0]) {
      var j := CountWitness(s[1..], p);
      k := j + 1;
    } else {
      k := 0;
    }
  }

  /** If every entry satisfies p, the count is the length. */
  lemma {:induction false} CountAll(s: seq<int>, p: int -> bool)
    requires forall k :: 0 <= k < |s| ==> p(s[k])
    ensures Count(s, p) == |s|
  {
    if s != [] { CountAll(s[1..], p); }
  }

  /** On a 0/1 vector the sum is the number of ones. */
  lemma {:induction false} SumOfBits(s: seq<int>)
    requires forall k :: 0 <= k < |s| ==> s[k] == 0 || s[k] == 1
    ensures Sum(s) == Count(s, IsOne)
  {
    if s != [] { SumOfBits(s[1..]); }
  }

  /** A 0/1 vector sums to at most 0 exactly when every entry is 0. */
  lemma {:induction false} SumOfBitsZero(s: seq<int>)
    requires forall k :: 0 <= k < |s| ==> s[k] == 0 || s[k] == 1
    ensures Sum(s) <= 0 <==> forall k :: 0 <= k < |s| ==> s[k] == 0
  {
    if s != [] {
      SumOfBitsZero(s[1..]);
      SumOfBits(s[1..]);
      assert forall k :: 1 <= k < |s| ==> s[k] == s[1..][k - 1];
    }
  }

  /** A 0/1 vector with a 1 somewhere sums to more than 0. */
  lemma {:induction false} SumOfBitsPositive(s: seq<int>, k: nat)
    requires forall j :: 0 <= j < |s| ==> s[j] == 0 || s[j] == 1
    requires k < |s| && s[k] == 1
    ensures Sum(s) > 0
  {
    if k > 0 {
      SumOfBitsPositive(s[1..], k - 1);
    } else {
      SumOfBits(s[1..]);
    }
  }

  /** Pointwise implication between the predicates bounds the counts. */
  lemma {:induction false} CountMonotone(s: seq<int>, p: int -> bool, q: int -> bool)
    requires forall k :: 0 <= k < |s| && p(s[k]) ==> q(s[k])
    ensures Count(s, p) <= Count(s, q)
  {
    if s != [] { CountMonotone(s[1..], p, q); }
  }

  /** Counts over two equally long vectors compare when p on the first implies p on the second. */
  lemma {:induction false} CountPointwise(s: seq<int>, t: seq<int>, p: int -> bool)
    requires |s| == |t| && forall k :: 0 <= k < |s| && p(s[k]) ==> p(t[k])
    ensures Count(s, p) <= Count(t, p)
  {
    if s != [] { CountPointwise(s[1..], t[1..], p); }
  }

  /** A property of every cell of a matrix holds of every entry of its flattening. */
  lemma {:induction false} FlattenValues(g: Matrix, w: nat, h: nat, p: int -> bool)
    requires IsMatrix(g, w, h)
    requires forall a, b :: 0 <= a < w && 0 <= b < h ==> p(g[a][b])
    ensures forall k :: 0 <= k < |Flatten(g)| ==> p(Flatten(g)[k])
  {
    if w > 0 {
      assert IsMatrix(g[1..], w - 1, h);
      FlattenValues(g[1..], w - 1, h, p);
      forall k | 0 <= k < |Flatten(g)|
        ensures p(Flatten(g)[k])
      {
        if k >= h {
          assert Flatten(g)[k] == Flatten(g[1..])[k - h];
        } else {
          assert Flatten(g)[k] == g[0][k];
        }
      }
    }
  }

  /** Counting over matrices cell by cell: p on g implies p on g' bounds the counts. */
  lemma {:induction false} CountFlattenPointwise(g: Matrix, g': Matrix, w: nat, h: nat, p: int -> bool)
    requires IsMatrix(g, w, h) && IsMatrix(g', w, h)
    requires forall a, b :: 0 <= a < w && 0 <= b < h && p(g[a][b]) ==> p(g'[a][b])
    ensures Count(Flatten(g), p) <= Count(Flatten(g'), p)
  {
    if w > 0 {
      assert IsMatrix(g[1..], w - 1, h) && IsMatrix(g'[1..], w - 1, h);
      CountFlattenPointwise(g[1..], g'[1..], w - 1, h, p);
      CountPointwise(g[0], g'[0], p);
      CountAppend(g[0], Flatten(g[1..]), p);
      CountAppend(g'[0], Flatten(g'[1..]), p);
    }
  }

  /** The sum of a matrix's flattening is the sum of its row sums. */
  lemma {:induction false} SumFlatten(g: Matrix)
    ensures Sum(Flatten(g)) == Sum(seq(|g|, a requires 0 <= a < |g| => Sum(g[a])))
  {
    if g != [] {
      SumFlatten(g[1..]);
      SumAppend(g[0], Flatten(g[1..]));
      var rows := seq(|g|, a requires 0 <= a < |g| => Sum(g[a]));
      assert rows[1..] == seq(|g[1..]|, a requires 0 <= a < |g[1..]| => Sum(g[1..][a]));
    }
  }

  /** The 0/1 vector of length n that is 1 exactly on positions lo <= i < hi. */
  function Indicator(n: nat, lo: int, hi: int): (r: seq<int>)
    ensures |r| == n
  {
    seq(n, i => if lo <= i < hi then 1 else 0)
  }

  /** An indicator vector sums to the number of its positions inside the interval. */
  lemma {:induction false} IndicatorSum(n: nat, lo: int, hi: int)
    ensures Sum(Indicator(n, lo, hi)) == Max(0, Min(hi, n) - Max(lo, 0))
  {
    if n > 0 {
      assert Indicator(n, lo, hi)[1..] == Indicator(n - 1, lo - 1, hi - 1);
      IndicatorSum(n - 1, lo - 1, hi - 1);
    }
  }

  function Min(a: int, b: int): int { if a <= b then a else b }
  function Max(a: int, b: int): int { if a >= b then a else b }

  // ---------------------------------------------------------------------------
  // Arrays and their mirrors

  /** Row a of a two-dimensional array. */
  function Row(m: array2<int>, a: nat): (r: seq<int>)
    requires a < m.Length0
    reads m
    ensures |r| == m.Length1 && forall b :: 0 <= b < m.Length1 ==> r[b] == m[a, b]
  {
    seq(m.Length1, b requires 0 <= b < m.Length1 reads m => m[a, b])
  }

  function FlatFrom(m: array2<int>, a: nat): seq<int>
    requires a <= m.Length0
    reads m
    decreases m.Length0 - a
  {
    if a == m.Length0 then [] else Row(m, a) + FlatFrom(m, a + 1)
  }

  /** The entries of a two-dimensional array in row-major order. */
  function Flat(m: array2<int>): seq<int>
    reads m
  {
    FlatFrom(m, 0)
  }

  /** The total of all entries of a two-dimensional array. */
  function ArraySum(m: array2<int>): int
    reads m
  {
    Sum(Flat(m))
  }

  /** g holds exactly the contents of m. */
  ghost predicate Mirrors(m: array2<int>, g: Matrix)
    reads m
  {
    IsMatrix(g, m.Length0, m.Length1) &&
    forall a, b :: 0 <= a < m.Length0 && 0 <= b < m.Length1 ==> m[a, b] == g[a][b]
  }

  /** m[x, y] := v, with the mirror following the write. */
  method Store(m: array2<int>, ghost g: Matrix, x: nat, y: nat, v: int) returns (ghost g': Matrix)
    requires Mirrors(m, g) && x < m.Length0 && y < m.Length1
    modifies m
    ensures g' == Set(g, x, y, v) && Mirrors(m, g')
  {
    m[x, y] := v;
    g' := Set(g, x, y, v);
  }

  lemma {:induction false} FlatFromMirror(m: array2<int>, g: Matrix, a: nat)
    requires Mirrors(m, g) && a <= m.Length0
    ensures FlatFrom(m, a) == Flatten(g[a..])
    decreases m.Length0 - a
  {
    if a < m.Length0 {
      FlatFromMirror(m, g, a + 1);
      assert Row(m, a) == g[a];
      assert g[a..][0] == g[a] && g[a..][1..] == g[a + 1..];
    } else {
      assert g[a..] == [];
    }
  }

  /** Flattening an array gives the flattening of its mirror. */
  lemma FlatMirror(m: array2<int>, g: Matrix)
    requires Mirrors(m, g)
    ensures Flat(m) == Flatten(g)
  {
    FlatFromMirror(m, g, 0);
    assert g[0..] == g;
  }
}
