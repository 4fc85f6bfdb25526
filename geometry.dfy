/** Cell arithmetic of the uniform spatial grid: clamping, flooring and ceiling on reals. */
module Geometry {
  import opened Settings

  /** Math.max */
  function Max(a: real, b: real): real { if a < b then b else a }

  /** Math.min */
  function Min(a: real, b: real): real { if a < b then a else b }

  function Abs(a: real): real { if a < 0.0 then -a else a }

  /** Math.ceil: the least integer not below r. */
  function Ceil(r: real): (c: int)
    ensures r <= c as real < r + 1.0
  {
    if r.Floor as real == r then r.Floor else r.Floor + 1
  }

  /** Math.max(0, Math.min(v, hi)): v pulled into [0, hi], or 0 when hi < 0. */
  function Clamp(v: real, hi: real): (e: real)
    ensures 0.0 <= e
    ensures 0.0 <= hi ==> e <= hi
    ensures 0.0 <= v <= hi ==> e == v
    ensures hi < 0.0 ==> e == 0.0
  {
    Max(0.0, Min(v, hi))
  }

  /** The grid row or column of a coordinate on an axis of the given extent:
      the coordinate is clamped to [0, extent - 1] and floored in cell units. */
  function CellIndex(v: real, extent: real): (k: int)
    ensures 0 <= k
    ensures v < 0.0 ==> k == 0
    ensures 0.0 <= v <= extent - 1.0 ==> k as real * GridCellSize <= v < (k + 1) as real * GridCellSize
  {
    (Clamp(v, extent - 1.0) / GridCellSize).Floor
  }

  /** Math.ceil(extent / gridCellSize): the number of cells along an axis. */
  function CellCount(extent: real): (n: int)
    ensures 0.0 <= extent ==> 0 <= n
    ensures 0.0 < extent ==> 1 <= n
    ensures 0.0 < extent ==> (n - 1) as real * GridCellSize < extent <= n as real * GridCellSize
  {
    Ceil(extent / GridCellSize)
  }

  function DistSq(dx: real, dy: real): real { dx * dx + dy * dy }

  /** A clamped coordinate always falls in one of the CellCount(extent) cells. */
  lemma CellIndexInRange(v: real, extent: real)
    requires 0.0 < extent
    ensures CellIndex(v, extent) < CellCount(extent)
  {
    var e := Clamp(v, extent - 1.0);
    assert e < extent;
    var q := e / GridCellSize;
    assert q < extent / GridCellSize;
    assert q.Floor as real <= q;
  }

  /** The clamp stops at extent - 1, not at the last cell: when extent - 1 still lies in the
      second-to-last cell, no coordinate reaches the last one. A 150.5-pixel axis has two
      cells, and every coordinate gets index 0. */
  lemma LastCellUnreached(v: real)
    ensures CellCount(150.5) == 2
    ensures CellIndex(v, 150.5) == 0
  {
  }

  /** Clamping never moves two coordinates further apart. */
  lemma ClampShrinks(a: real, b: real, hi: real)
    ensures Abs(Clamp(a, hi) - Clamp(b, hi)) <= Abs(a - b)
  {
  }

  /** Coordinates less than one cell apart land in the same or adjacent cells. */
  lemma NearCellsAdjacent(a: real, b: real, extent: real)
    requires Abs(a - b) < GridCellSize
    ensures -1 <= CellIndex(a, extent) - CellIndex(b, extent) <= 1
  {
    var ea, eb := Clamp(a, extent - 1.0), Clamp(b, extent - 1.0);
    ClampShrinks(a, b, extent - 1.0);
    var qa, qb := ea / GridCellSize, eb / GridCellSize;
    assert -1.0 < qa - qb < 1.0;
    assert qa.Floor as real <= qa < qa.Floor as real + 1.0;
    assert qb.Floor as real <= qb < qb.Floor as real + 1.0;
  }

  /** A pair closer than one cell size is less than a cell apart on each axis. */
  lemma NearPairAxes(dx: real, dy: real)
    requires DistSq(dx, dy) < GridCellSize * GridCellSize
    ensures Abs(dx) < GridCellSize && Abs(dy) < GridCellSize
  {
  }
}
