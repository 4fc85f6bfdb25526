/** The 3x3 neighbour scan shared by the force pass and the line pass: for particle i,
    the cells around its own cell are visited row offset by row offset, column offset by
    column offset, and an entry j of a visited cell is kept only when its id is larger than
    particle i's id. */
module Neighbours {
  import opened Settings
  import opened Geometry
  import opened Particles
  import opened SpatialGrid

  /** The k-th (row, column) offset of the scan: -1..1 for rows, and for each row -1..1 for columns. */
  function BlockOffset(k: nat): (int, int)
    requires k < 9
  {
    var r := if k < 3 then 0 else if k < 6 then 1 else 2;
    (r - 1, k - 3 * r - 1)
  }

  /** The k-th cell visited around (row, col). */
  function BlockCell(row: int, col: int, k: nat): (int, int)
    requires k < 9
  {
    (row + BlockOffset(k).0, col + BlockOffset(k).1)
  }

  /** The entries of cell that pass the id filter against particle i, in cell order. */
  function CellCandidates(ids: seq<int>, i: nat, cell: Cell): (js: seq<nat>)
    requires i < |ids|
    requires forall m :: 0 <= m < |cell| ==> cell[m] < |ids|
    ensures forall m :: 0 <= m < |js| ==> js[m] < |ids| && ids[i] < ids[js[m]]
  {
    if cell == [] then []
    else
      var j := cell[|cell| - 1];
      CellCandidates(ids, i, cell[..|cell| - 1]) + (if ids[j] <= ids[i] then [] else [j])
  }

  /** The candidates found in the first k cells of the scan around (row, col); cells
      outside the rows-by-cols grid are skipped. */
  function BlockCandidates(ids: seq<int>, g: Grid, rows: nat, cols: nat, i: nat, row: int, col: int, k: nat): (js: seq<nat>)
    requires i < |ids| && Shaped(g, rows, cols) && IndicesBelow(g, |ids|) && k <= 9
    ensures forall m :: 0 <= m < |js| ==> js[m] < |ids| && ids[i] < ids[js[m]]
  {
    if k == 0 then []
    else
      var rc := BlockCell(row, col, k - 1);
      BlockCandidates(ids, g, rows, cols, i, row, col, k - 1) +
      (if InGrid(rows, cols, rc.0, rc.1) then CellCandidates(ids, i, g[rc.0][rc.1]) else [])
  }

  /** Scanning one more entry of a cell keeps it exactly when its id is larger. */
  lemma CellCandidatesStep(ids: seq<int>, i: nat, cell: Cell, m: nat)
    requires i < |ids| && m < |cell|
    requires forall t :: 0 <= t < |cell| ==> cell[t] < |ids|
    ensures CellCandidates(ids, i, cell[..m + 1]) ==
      CellCandidates(ids, i, cell[..m]) + (if ids[cell[m]] <= ids[i] then [] else [cell[m]])
  {
    assert cell[..m + 1][..m] == cell[..m];
  }

  /** Every particle paired with particle i by the scan around (row, col). */
  function Candidates(ids: seq<int>, g: Grid, rows: nat, cols: nat, i: nat, row: int, col: int): (js: seq<nat>)
    requires i < |ids| && Shaped(g, rows, cols) && IndicesBelow(g, |ids|)
    ensures forall m :: 0 <= m < |js| ==> js[m] < |ids| && ids[i] < ids[js[m]]
  {
    BlockCandidates(ids, g, rows, cols, i, row, col, 9)
  }

  predicate Distinct(s: seq<nat>) {
    forall a, b :: 0 <= a < b < |s| ==> s[a] != s[b]
  }

  /** The scanned offsets are pairwise different, so no cell is visited twice. */
  lemma BlockCellsDiffer(row: int, col: int, k1: nat, k2: nat)
    requires k1 < 9 && k2 < 9 && k1 != k2
    ensures BlockCell(row, col, k1) != BlockCell(row, col, k2)
  {
  }

  /** The cell filter keeps exactly the entries with a larger id, and keeps them distinct. */
  lemma {:induction false} CellCandidatesMembers(ids: seq<int>, i: nat, cell: Cell)
    requires i < |ids|
    requires forall m :: 0 <= m < |cell| ==> cell[m] < |ids|
    ensures forall j :: j in CellCandidates(ids, i, cell) <==> j in cell && ids[i] < ids[j]
    ensures Distinct(cell) ==> Distinct(CellCandidates(ids, i, cell))
  {
    if cell != [] {
      var front := cell[..|cell| - 1];
      CellCandidatesMembers(ids, i, front);
      assert cell == front + [cell[|cell| - 1]];
    }
  }

  /** j is an entry of the k-th scanned cell around (row, col), and that cell is in the grid. */
  predicate InScannedCell(g: Grid, rows: nat, cols: nat, row: int, col: int, k: nat, j: nat)
    requires Shaped(g, rows, cols) && k < 9
  {
    var rc := BlockCell(row, col, k);
    InGrid(rows, cols, rc.0, rc.1) && j in g[rc.0][rc.1]
  }

  /** A candidate of the first k cells comes from one of those cells. */
  lemma {:induction false} BlockCandidatesSound(ids: seq<int>, g: Grid, rows: nat, cols: nat, i: nat, row: int, col: int, k: nat, j: nat)
    requires i < |ids| && Shaped(g, rows, cols) && IndicesBelow(g, |ids|) && k <= 9
    requires j in BlockCandidates(ids, g, rows, cols, i, row, col, k)
    ensures exists k' :: 0 <= k' < k && InScannedCell(g, rows, cols, row, col, k', j)
  {
    var rc := BlockCell(row, col, k - 1);
    if j in BlockCandidates(ids, g, rows, cols, i, row, col, k - 1) {
      BlockCandidatesSound(ids, g, rows, cols, i, row, col, k - 1, j);
    } else {
      CellCandidatesMembers(ids, i, g[rc.0][rc.1]);
      assert InScannedCell(g, rows, cols, row, col, k - 1, j);
    }
  }

  /** Every entry with a larger id in one of the first k cells is a candidate. */
  lemma {:induction false} BlockCandidatesComplete(ids: seq<int>, g: Grid, rows: nat, cols: nat, i: nat, row: int, col: int, k: nat, k': nat, j: nat)
    requires i < |ids| && Shaped(g, rows, cols) && IndicesBelow(g, |ids|) && k <= 9
    requires k' < k && InScannedCell(g, rows, cols, row, col, k', j) && ids[i] < ids[j]
    ensures j in BlockCandidates(ids, g, rows, cols, i, row, col, k)
  {
    if k' == k - 1 {
      var rc := BlockCell(row, col, k');
      CellCandidatesMembers(ids, i, g[rc.0][rc.1]);
    } else {
      BlockCandidatesComplete(ids, g, rows, cols, i, row, col, k - 1, k', j);
    }
  }

  /** Two different scanned cells never share an entry when no particle sits twice in the grid. */
  lemma ScannedCellsDisjoint(g: Grid, rows: nat, cols: nat, row: int, col: int, k1: nat, k2: nat, j: nat)
    requires Shaped(g, rows, cols) && AtMostOnce(g) && k1 < 9 && k2 < 9
    requires InScannedCell(g, rows, cols, row, col, k1, j) && InScannedCell(g, rows, cols, row, col, k2, j)
    ensures k1 == k2
  {
    var rc1, rc2 := BlockCell(row, col, k1), BlockCell(row, col, k2);
    var m1 :| 0 <= m1 < |g[rc1.0][rc1.1]| && g[rc1.0][rc1.1][m1] == j;
    var m2 :| 0 <= m2 < |g[rc2.0][rc2.1]| && g[rc2.0][rc2.1][m2] == j;
    assert rc1 == rc2;
    if k1 != k2 {
      BlockCellsDiffer(row, col, k1, k2);
    }
  }

  lemma DistinctConcat(a: seq<nat>, b: seq<nat>)
    requires Distinct(a) && Distinct(b)
    requires forall j :: j in a ==> j !in b
    ensures Distinct(a + b)
  {
    var s := a + b;
    forall x, y | 0 <= x < y < |s| ensures s[x] != s[y] {
      if x < |a| <= y {
        assert s[x] in a && s[y] in b;
      }
    }
  }

  /** When no particle sits twice in the grid, the scan never yields the same partner twice. */
  lemma {:induction false} CandidatesDistinct(ids: seq<int>, g: Grid, rows: nat, cols: nat, i: nat, row: int, col: int, k: nat)
    requires i < |ids| && Shaped(g, rows, cols) && IndicesBelow(g, |ids|) && k <= 9
    requires AtMostOnce(g)
    ensures Distinct(BlockCandidates(ids, g, rows, cols, i, row, col, k))
  {
    if k > 0 {
      CandidatesDistinct(ids, g, rows, cols, i, row, col, k - 1);
      var rc := BlockCell(row, col, k - 1);
      if InGrid(rows, cols, rc.0, rc.1) {
        var cell := g[rc.0][rc.1];
        var front := BlockCandidates(ids, g, rows, cols, i, row, col, k - 1);
        var back := CellCandidates(ids, i, cell);
        CellCandidatesMembers(ids, i, cell);
        assert Distinct(cell) by {
          forall a, b | 0 <= a < b < |cell| ensures cell[a] != cell[b] {
            assert g[rc.0][rc.1][a] == cell[a] && g[rc.0][rc.1][b] == cell[b];
          }
        }
        forall j | j in front
          ensures j !in back
        {
          BlockCandidatesSound(ids, g, rows, cols, i, row, col, k - 1, j);
          var k' :| 0 <= k' < k - 1 && InScannedCell(g, rows, cols, row, col, k', j);
          if j in back {
            assert InScannedCell(g, rows, cols, row, col, k - 1, j);
            ScannedCellsDisjoint(g, rows, cols, row, col, k', k - 1, j);
          }
        }
        DistinctConcat(front, back);
      }
    }
  }

  /** Neighbour completeness: on a grid freshly rebuilt for the current banner, a particle
      closer than one cell size to particle i, and with a larger id, is found by the scan
      around particle i's cell. */
  lemma NearPairIsCandidate(ps: seq<Particle>, width: real, height: real, i: nat, j: nat)
    requires 0.0 < width && 0.0 < height && i < |ps| && j < |ps|
    requires ps[i].id < ps[j].id
    requires DistSq(ps[i].x - ps[j].x, ps[i].y - ps[j].y) < GridCellSize * GridCellSize
    ensures var rows, cols := CellCount(height), CellCount(width);
      var rc := CellOf(ps[i], width, height);
      j in Candidates(Ids(ps), Bucketed(ps, width, height, rows, cols, |ps|), rows, cols, i, rc.0, rc.1)
  {
    var rows, cols := CellCount(height), CellCount(width);
    var g := Bucketed(ps, width, height, rows, cols, |ps|);
    var rc, rcj := CellOf(ps[i], width, height), CellOf(ps[j], width, height);
    NearPairAxes(ps[i].x - ps[j].x, ps[i].y - ps[j].y);
    NearCellsAdjacent(ps[j].x, ps[i].x, width);
    NearCellsAdjacent(ps[j].y, ps[i].y, height);
    var k := KOf(rcj.0 - rc.0, rcj.1 - rc.1);
    assert BlockCell(rc.0, rc.1, k) == rcj;
    assert InScannedCell(g, rows, cols, rc.0, rc.1, k, j) by {
      PlacedInOneCell(ps, width, height, j);
    }
    BlockCandidatesComplete(Ids(ps), g, rows, cols, i, rc.0, rc.1, 9, k, j);
  }

  /** The scan position of the cell at offset (dr, dc). */
  function KOf(dr: int, dc: int): (k: nat)
    requires -1 <= dr <= 1 && -1 <= dc <= 1
    ensures k < 9 && BlockOffset(k) == (dr, dc)
  {
    (dr + 1) * 3 + (dc + 1)
  }

  /** For each particle, in array order, the partners its 3x3 scan yields. Within one pass
      neither positions nor ids change, so these are the partners the pass visits. */
  function Scans(ps: seq<Particle>, g: Grid, rows: nat, cols: nat, width: real, height: real): (sc: seq<seq<nat>>)
    requires Shaped(g, rows, cols) && IndicesBelow(g, |ps|)
    ensures ScansOrdered(sc, Ids(ps)) && ScansValid(sc, |ps|)
  {
    seq(|ps|, i requires 0 <= i < |ps| =>
      Candidates(Ids(ps), g, rows, cols, i, CellOf(ps[i], width, height).0, CellOf(ps[i], width, height).1))
  }

  /** Scan i lists only particles with a larger id than particle i. */
  predicate ScansOrdered(sc: seq<seq<nat>>, ids: seq<int>) {
    |sc| == |ids| &&
    forall i, m :: 0 <= i < |sc| && 0 <= m < |sc[i]| ==> sc[i][m] < |ids| && ids[i] < ids[sc[i][m]]
  }

  /** Scan i lists only particles other than particle i. */
  predicate ScansValid(sc: seq<seq<nat>>, n: nat) {
    |sc| == n &&
    forall i, m :: 0 <= i < |sc| && 0 <= m < |sc[i]| ==> sc[i][m] < n && sc[i][m] != i
  }

  /** Neighbour completeness for a pass over a freshly rebuilt grid. */
  lemma NearPairScanned(ps: seq<Particle>, width: real, height: real, i: nat, j: nat)
    requires 0.0 < width && 0.0 < height && i < |ps| && j < |ps|
    requires ps[i].id < ps[j].id
    requires DistSq(ps[i].x - ps[j].x, ps[i].y - ps[j].y) < GridCellSize * GridCellSize
    ensures j in Scans(ps, Bucketed(ps, width, height, CellCount(height), CellCount(width), |ps|), CellCount(height), CellCount(width), width, height)[i]
  {
    NearPairIsCandidate(ps, width, height, i, j);
  }

  /** No scan repeats a partner when no particle sits twice in the grid. */
  lemma ScansDistinct(ps: seq<Particle>, g: Grid, rows: nat, cols: nat, width: real, height: real)
    requires Shaped(g, rows, cols) && IndicesBelow(g, |ps|) && AtMostOnce(g)
    ensures forall i :: 0 <= i < |ps| ==> Distinct(Scans(ps, g, rows, cols, width, height)[i])
  {
    forall i | 0 <= i < |ps| ensures Distinct(Scans(ps, g, rows, cols, width, height)[i]) {
      var rc := CellOf(ps[i], width, height);
      CandidatesDistinct(Ids(ps), g, rows, cols, i, rc.0, rc.1, 9);
    }
  }

  /** The (particle, partner) pairs a pass visits, for particles 0 .. n-1 in order. */
  function ScanPairs(sc: seq<seq<nat>>, n: nat): (pairs: seq<(nat, nat)>)
    requires n <= |sc|
    ensures forall m :: 0 <= m < |pairs| ==> pairs[m].0 < n && pairs[m].1 in sc[pairs[m].0]
  {
    if n == 0 then []
    else ScanPairs(sc, n - 1) + seq(|sc[n - 1]|, m requires 0 <= m < |sc[n - 1]| => (n - 1, sc[n - 1][m]))
  }

  predicate SamePair(a: (nat, nat), b: (nat, nat)) {
    (a.0 == b.0 && a.1 == b.1) || (a.0 == b.1 && a.1 == b.0)
  }

  /** Each unordered pair of particles is visited at most once by the pass, and no particle
      is paired with itself: the id filter keeps only partners with a larger id. */
  lemma {:induction false} ScanPairsOnce(sc: seq<seq<nat>>, ids: seq<int>, n: nat)
    requires ScansOrdered(sc, ids) && n <= |sc|
    requires forall i :: 0 <= i < |sc| ==> Distinct(sc[i])
    ensures forall a :: 0 <= a < |ScanPairs(sc, n)| ==> ScanPairs(sc, n)[a].0 != ScanPairs(sc, n)[a].1
    ensures forall a, b :: 0 <= a < b < |ScanPairs(sc, n)| ==> !SamePair(ScanPairs(sc, n)[a], ScanPairs(sc, n)[b])
  {
    if n > 0 {
      ScanPairsOnce(sc, ids, n - 1);
      var front := ScanPairs(sc, n - 1);
      var back: seq<(nat, nat)> := seq(|sc[n - 1]|, m requires 0 <= m < |sc[n - 1]| => (n - 1, sc[n - 1][m]));
      var all := ScanPairs(sc, n);
      assert all == front + back;
      forall a | 0 <= a < |all| ensures all[a].0 != all[a].1 {
        var m :| 0 <= m < |sc[all[a].0]| && sc[all[a].0][m] == all[a].1;
      }
      forall a, b | 0 <= a < b < |all| ensures !SamePair(all[a], all[b]) {
        if b >= |front| {
          if a >= |front| {
            assert sc[n - 1][a - |front|] != sc[n - 1][b - |front|];
          } else {
            var p := all[a];
            var m :| 0 <= m < |sc[p.0]| && sc[p.0][m] == p.1;
            assert ids[p.0] < ids[p.1];
            assert p.0 < n - 1;
            assert ids[n - 1] < ids[sc[n - 1][b - |front|]];
          }
        }
      }
    }
  }
}
