/** The uniform spatial grid: a rows-by-columns table of cells, each listing the
    particles (by their place in the particle array) whose clamped position falls in it. */
module SpatialGrid {
  import opened Settings
  import opened Geometry
  import opened Particles

  type Cell = seq<nat>
  type Grid = seq<seq<Cell>>

  /** g has exactly rows rows of exactly cols cells each. */
  predicate Shaped(g: Grid, rows: int, cols: int) {
    |g| == rows && forall r :: 0 <= r < |g| ==> |g[r]| == cols
  }

  predicate InGrid(rows: int, cols: int, r: int, c: int) {
    0 <= r < rows && 0 <= c < cols
  }

  /** Every entry of every cell is an index below n. */
  predicate IndicesBelow(g: Grid, n: nat) {
    forall r, c, m :: 0 <= r < |g| && 0 <= c < |g[r]| && 0 <= m < |g[r][c]| ==> g[r][c][m] < n
  }

  /** No particle sits in two places of the grid: equal entries are the same entry. */
  predicate AtMostOnce(g: Grid) {
    forall r1, c1, m1, r2, c2, m2 ::
      0 <= r1 < |g| && 0 <= c1 < |g[r1]| && 0 <= m1 < |g[r1][c1]| &&
      0 <= r2 < |g| && 0 <= c2 < |g[r2]| && 0 <= m2 < |g[r2][c2]| &&
      g[r1][c1][m1] == g[r2][c2][m2]
      ==> r1 == r2 && c1 == c2 && m1 == m2
  }

  /** Every cell of g is empty. */
  predicate AllEmpty(g: Grid) {
    forall r, c :: 0 <= r < |g| && 0 <= c < |g[r]| ==> g[r][c] == []
  }

  /** The cell (r, c) after the first n particles have been pushed: the indices below n
      whose particle falls in (r, c), in increasing order. */
  function Bucket(ps: seq<Particle>, width: real, height: real, r: int, c: int, n: nat): (b: Cell)
    requires n <= |ps|
    ensures forall m :: 0 <= m < |b| ==> b[m] < n
  {
    if n == 0 then []
    else Bucket(ps, width, height, r, c, n - 1) + (if CellOf(ps[n - 1], width, height) == (r, c) then [n - 1] else [])
  }

  /** The grid after clearing every cell and pushing the first n particles. */
  function Bucketed(ps: seq<Particle>, width: real, height: real, rows: nat, cols: nat, n: nat): (g: Grid)
    requires n <= |ps|
    ensures Shaped(g, rows, cols) && IndicesBelow(g, n)
  {
    seq(rows, r => seq(cols, c => Bucket(ps, width, height, r, c, n)))
  }

  /** A cleared grid of the right shape is the grid before any particle is pushed. */
  lemma BucketedCleared(ps: seq<Particle>, width: real, height: real, rows: nat, cols: nat, g: Grid)
    requires Shaped(g, rows, cols) && AllEmpty(g)
    ensures g == Bucketed(ps, width, height, rows, cols, 0)
  {
    var b := Bucketed(ps, width, height, rows, cols, 0);
    forall r | 0 <= r < rows ensures g[r] == b[r] {
      assert forall c :: 0 <= c < cols ==> g[r][c] == b[r][c];
    }
  }

  /** Pushing particle n onto the cell it falls in, when that cell is in the grid, turns the
      grid of the first n particles into the grid of the first n + 1. */
  lemma BucketedPush(ps: seq<Particle>, width: real, height: real, rows: nat, cols: nat, n: nat)
    requires n < |ps|
    ensures var g, rc := Bucketed(ps, width, height, rows, cols, n), CellOf(ps[n], width, height);
      Bucketed(ps, width, height, rows, cols, n + 1) ==
        if InGrid(rows, cols, rc.0, rc.1) then g[rc.0 := g[rc.0][rc.1 := g[rc.0][rc.1] + [n]]] else g
  {
    var g, rc := Bucketed(ps, width, height, rows, cols, n), CellOf(ps[n], width, height);
    var g' := Bucketed(ps, width, height, rows, cols, n + 1);
    var h := if InGrid(rows, cols, rc.0, rc.1) then g[rc.0 := g[rc.0][rc.1 := g[rc.0][rc.1] + [n]]] else g;
    forall r | 0 <= r < rows ensures g'[r] == h[r] {
      forall c | 0 <= c < cols ensures g'[r][c] == h[r][c] {
        assert g'[r][c] == Bucket(ps, width, height, r, c, n + 1);
        assert g[r][c] == Bucket(ps, width, height, r, c, n);
      }
    }
  }

  /** A cell holds exactly the particles whose clamped, floored position is that cell,
      each once and in array order. */
  lemma {:induction false} BucketMembers(ps: seq<Particle>, width: real, height: real, r: int, c: int, n: nat)
    requires n <= |ps|
    ensures forall k :: k in Bucket(ps, width, height, r, c, n) <==> 0 <= k < n && CellOf(ps[k], width, height) == (r, c)
    ensures forall m1, m2 :: 0 <= m1 < m2 < |Bucket(ps, width, height, r, c, n)| ==>
      Bucket(ps, width, height, r, c, n)[m1] < Bucket(ps, width, height, r, c, n)[m2]
  {
    if n > 0 {
      BucketMembers(ps, width, height, r, c, n - 1);
    }
  }

  /** After a rebuild no particle sits in two places of the grid. */
  lemma BucketedAtMostOnce(ps: seq<Particle>, width: real, height: real, rows: nat, cols: nat, n: nat)
    requires n <= |ps|
    ensures AtMostOnce(Bucketed(ps, width, height, rows, cols, n))
  {
    var g := Bucketed(ps, width, height, rows, cols, n);
    forall r1, c1, m1, r2, c2, m2 |
      0 <= r1 < |g| && 0 <= c1 < |g[r1]| && 0 <= m1 < |g[r1][c1]| &&
      0 <= r2 < |g| && 0 <= c2 < |g[r2]| && 0 <= m2 < |g[r2][c2]| &&
      g[r1][c1][m1] == g[r2][c2][m2]
      ensures r1 == r2 && c1 == c2 && m1 == m2
    {
      BucketMembers(ps, width, height, r1, c1, n);
      BucketMembers(ps, width, height, r2, c2, n);
      var k := g[r1][c1][m1];
      assert k in g[r1][c1] && k in g[r2][c2];
    }
  }

  /** When the grid was sized for the current banner (width and height positive), every
      particle lands in exactly one cell, the one at its clamped, floored position. */
  lemma PlacedInOneCell(ps: seq<Particle>, width: real, height: real, k: nat)
    requires 0.0 < width && 0.0 < height && k < |ps|
    ensures InGrid(CellCount(height), CellCount(width), CellOf(ps[k], width, height).0, CellOf(ps[k], width, height).1)
    ensures forall r, c :: InGrid(CellCount(height), CellCount(width), r, c) ==>
      (k in Bucketed(ps, width, height, CellCount(height), CellCount(width), |ps|)[r][c] <==> (r, c) == CellOf(ps[k], width, height))
  {
    CellIndexInRange(ps[k].x, width);
    CellIndexInRange(ps[k].y, height);
    forall r, c | InGrid(CellCount(height), CellCount(width), r, c)
      ensures k in Bucketed(ps, width, height, CellCount(height), CellCount(width), |ps|)[r][c] <==> (r, c) == CellOf(ps[k], width, height)
    {
      BucketMembers(ps, width, height, r, c, |ps|);
    }
  }

  /** The number of entries in a row of cells. */
  function RowTotal(row: seq<Cell>): nat {
    if row == [] then 0 else RowTotal(row[..|row| - 1]) + |row[|row| - 1]|
  }

  /** The number of entries in the whole grid. */
  function Total(g: Grid): nat {
    if g == [] then 0 else Total(g[..|g| - 1]) + RowTotal(g[|g| - 1])
  }

  /** How many of the first n particles fall in a cell of a rows-by-cols grid. */
  function PlacedCount(ps: seq<Particle>, width: real, height: real, rows: int, cols: int, n: nat): nat
    requires n <= |ps|
  {
    if n == 0 then 0
    else
      var rc := CellOf(ps[n - 1], width, height);
      PlacedCount(ps, width, height, rows, cols, n - 1) + (if InGrid(rows, cols, rc.0, rc.1) then 1 else 0)
  }

  lemma {:induction false} RowTotalBump(a: seq<Cell>, b: seq<Cell>, c0: int, d: nat)
    requires |a| == |b|
    requires forall c :: 0 <= c < |a| ==> |a[c]| == |b[c]| + (if c == c0 then d else 0)
    ensures RowTotal(a) == RowTotal(b) + (if 0 <= c0 < |a| then d else 0)
  {
    if a != [] {
      RowTotalBump(a[..|a| - 1], b[..|b| - 1], c0, d);
    }
  }

  lemma {:induction false} TotalBump(a: Grid, b: Grid, rows: nat, cols: nat, r0: int, c0: int)
    requires Shaped(a, rows, cols) && Shaped(b, rows, cols)
    requires forall r, c :: InGrid(rows, cols, r, c) ==> |a[r][c]| == |b[r][c]| + (if (r, c) == (r0, c0) then 1 else 0)
    ensures Total(a) == Total(b) + (if InGrid(rows, cols, r0, c0) then 1 else 0)
    decreases rows
  {
    if rows > 0 {
      var a', b' := a[..rows - 1], b[..rows - 1];
      TotalBump(a', b', rows - 1, cols, r0, c0);
      RowTotalBump(a[rows - 1], b[rows - 1], c0, if r0 == rows - 1 then 1 else 0);
    }
  }

  /** Rebuilding puts exactly one entry in the grid for every particle whose cell is in the grid. */
  lemma {:induction false} TotalIsPlaced(ps: seq<Particle>, width: real, height: real, rows: nat, cols: nat, n: nat)
    requires n <= |ps|
    ensures Total(Bucketed(ps, width, height, rows, cols, n)) == PlacedCount(ps, width, height, rows, cols, n)
  {
    if n == 0 {
      ZeroTotal(Bucketed(ps, width, height, rows, cols, 0), rows, cols);
    } else {
      TotalIsPlaced(ps, width, height, rows, cols, n - 1);
      var rc := CellOf(ps[n - 1], width, height);
      BucketedGrows(ps, width, height, rows, cols, n);
      TotalBump(Bucketed(ps, width, height, rows, cols, n), Bucketed(ps, width, height, rows, cols, n - 1), rows, cols, rc.0, rc.1);
    }
  }

  /** Pushing particle n - 1 adds one entry to its own cell and none to any other. */
  lemma BucketedGrows(ps: seq<Particle>, width: real, height: real, rows: nat, cols: nat, n: nat)
    requires 0 < n <= |ps|
    ensures forall r, c :: InGrid(rows, cols, r, c) ==>
      |Bucketed(ps, width, height, rows, cols, n)[r][c]| ==
        |Bucketed(ps, width, height, rows, cols, n - 1)[r][c]| + (if (r, c) == CellOf(ps[n - 1], width, height) then 1 else 0)
  {
    var a, b := Bucketed(ps, width, height, rows, cols, n), Bucketed(ps, width, height, rows, cols, n - 1);
    forall r, c | InGrid(rows, cols, r, c)
      ensures |a[r][c]| == |b[r][c]| + (if (r, c) == CellOf(ps[n - 1], width, height) then 1 else 0)
    {
      assert a[r][c] == Bucket(ps, width, height, r, c, n);
      assert b[r][c] == Bucket(ps, width, height, r, c, n - 1);
    }
  }

  lemma {:induction false} ZeroTotal(g: Grid, rows: nat, cols: nat)
    requires Shaped(g, rows, cols) && AllEmpty(g)
    ensures Total(g) == 0
    decreases rows
  {
    if rows > 0 {
      ZeroTotal(g[..rows - 1], rows - 1, cols);
      ZeroRowTotal(g[rows - 1]);
    }
  }

  lemma {:induction false} ZeroRowTotal(row: seq<Cell>)
    requires forall c :: 0 <= c < |row| ==> row[c] == []
    ensures RowTotal(row) == 0
  {
    if row != [] {
      ZeroRowTotal(row[..|row| - 1]);
    }
  }

  /** On a grid sized for the current banner the in-bounds guard always holds, so the
      grid ends up with exactly one entry per particle. */
  lemma {:induction false} AllPlaced(ps: seq<Particle>, width: real, height: real, n: nat)
    requires 0.0 < width && 0.0 < height && n <= |ps|
    ensures Total(Bucketed(ps, width, height, CellCount(height), CellCount(width), n)) == n
  {
    TotalIsPlaced(ps, width, height, CellCount(height), CellCount(width), n);
    PlacedCountAll(ps, width, height, n);
  }

  lemma {:induction false} PlacedCountAll(ps: seq<Particle>, width: real, height: real, n: nat)
    requires 0.0 < width && 0.0 < height && n <= |ps|
    ensures PlacedCount(ps, width, height, CellCount(height), CellCount(width), n) == n
  {
    if n > 0 {
      PlacedCountAll(ps, width, height, n - 1);
      CellIndexInRange(ps[n - 1].x, width);
      CellIndexInRange(ps[n - 1].y, height);
    }
  }

  /** A grid with no rows or no columns receives no entries at all. */
  lemma {:induction false} NothingPlacedInEmptyGrid(ps: seq<Particle>, width: real, height: real, rows: nat, cols: nat, n: nat)
    requires rows == 0 || cols == 0
    requires n <= |ps|
    ensures Total(Bucketed(ps, width, height, rows, cols, n)) == 0
  {
    TotalIsPlaced(ps, width, height, rows, cols, n);
    NonePlaced(ps, width, height, rows, cols, n);
  }

  lemma {:induction false} NonePlaced(ps: seq<Particle>, width: real, height: real, rows: nat, cols: nat, n: nat)
    requires rows == 0 || cols == 0
    requires n <= |ps|
    ensures PlacedCount(ps, width, height, rows, cols, n) == 0
  {
    if n > 0 {
      NonePlaced(ps, width, height, rows, cols, n - 1);
    }
  }
}
