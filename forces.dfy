/** The force pass of one frame as a function of the particles before it: for each particle
    in array order, mouse repulsion, then pair repulsion against every candidate of its
    3x3 scan. Force magnitudes (square roots) are caller-supplied functions of the offset. */
module Forces {
  import opened Settings
  import opened Geometry
  import opened Particles
  import opened SpatialGrid
  import opened Neighbours

  /** The mouse pushes a particle whose squared distance to it lies strictly between
      MinDistForMouseCalcSq and the squared interaction radius. */
  predicate MouseRepels(x: real, y: real, mouseX: real, mouseY: real) {
    var d := DistSq(x - mouseX, y - mouseY);
    d < InteractionRadius * InteractionRadius && d > MinDistForMouseCalcSq
  }

  /** Two particles push each other when their squared distance lies strictly between
      MinDistForPairCalcSq and the separation threshold. */
  predicate PairRepels(p1: Particle, p2: Particle, separationThresholdSq: real) {
    var d := DistSq(p1.x - p2.x, p1.y - p2.y);
    d < separationThresholdSq && d > MinDistForPairCalcSq
  }

  /** The force a law gives for an offset. */
  function Force(law: (real, real) -> (real, real), dx: real, dy: real): (real, real) { law(dx, dy) }

  function Neg(f: (real, real)): (real, real) { (-f.0, -f.1) }

  /** Mouse repulsion of particle i; the force is a function of the particle's offset from the mouse.
      Only particle i's velocity can change, and it changes exactly when the mouse repels it. */
  function MouseStep(ps: seq<Particle>, i: nat, mouseX: real, mouseY: real, mouseForce: (real, real) -> (real, real)): (r: seq<Particle>)
    requires i < |ps|
    ensures |r| == |ps| && r == ps[i := r[i]]
    ensures r[i].id == ps[i].id && r[i].x == ps[i].x && r[i].y == ps[i].y && r[i].size == ps[i].size && r[i].isAccent == ps[i].isAccent
    ensures MouseRepels(ps[i].x, ps[i].y, mouseX, mouseY) ==>
      r[i].vx == ps[i].vx + mouseForce(ps[i].x - mouseX, ps[i].y - mouseY).0 &&
      r[i].vy == ps[i].vy + mouseForce(ps[i].x - mouseX, ps[i].y - mouseY).1
    ensures !MouseRepels(ps[i].x, ps[i].y, mouseX, mouseY) ==> r == ps
  {
    if MouseRepels(ps[i].x, ps[i].y, mouseX, mouseY)
    then ps[i := Push(ps[i], mouseForce(ps[i].x - mouseX, ps[i].y - mouseY))]
    else ps
  }

  /** Pair repulsion between particles i and j: +F to i, -F to j. Only the velocities of i
      and j can change; for two different particles the changes are equal and opposite, and
      particle i's change is the force of the law for its offset from j. */
  function PairStep(ps: seq<Particle>, i: nat, j: nat, separationThresholdSq: real, pairForce: (real, real) -> (real, real)): (r: seq<Particle>)
    requires i < |ps| && j < |ps|
    ensures |r| == |ps| && r == ps[i := r[i]][j := r[j]]
    ensures r[i].id == ps[i].id && r[i].x == ps[i].x && r[i].y == ps[i].y && r[i].size == ps[i].size && r[i].isAccent == ps[i].isAccent
    ensures r[j].id == ps[j].id && r[j].x == ps[j].x && r[j].y == ps[j].y && r[j].size == ps[j].size && r[j].isAccent == ps[j].isAccent
    ensures i != j ==> r[i].vx - ps[i].vx == -(r[j].vx - ps[j].vx) && r[i].vy - ps[i].vy == -(r[j].vy - ps[j].vy)
    ensures i != j && PairRepels(ps[i], ps[j], separationThresholdSq) ==>
      r[i].vx == ps[i].vx + pairForce(ps[i].x - ps[j].x, ps[i].y - ps[j].y).0 &&
      r[i].vy == ps[i].vy + pairForce(ps[i].x - ps[j].x, ps[i].y - ps[j].y).1
    ensures !PairRepels(ps[i], ps[j], separationThresholdSq) ==> r == ps
  {
    if PairRepels(ps[i], ps[j], separationThresholdSq)
    then Exchange(ps, i, j, Force(pairForce, ps[i].x - ps[j].x, ps[i].y - ps[j].y))
    else ps
  }


  /** Equal and opposite velocity changes: +f to particle i, -f to particle j. */
  function Exchange(ps: seq<Particle>, i: nat, j: nat, f: (real, real)): (r: seq<Particle>)
    requires i < |ps| && j < |ps|
    ensures |r| == |ps|
  {
    ps[i := Push(ps[i], f)][j := Push(ps[j], Neg(f))]
  }

  /** Pair repulsion between particle i and each of js, in order. */
  function PairFold(ps: seq<Particle>, i: nat, js: seq<nat>, separationThresholdSq: real, pairForce: (real, real) -> (real, real)): (r: seq<Particle>)
    requires i < |ps| && forall m :: 0 <= m < |js| ==> js[m] < |ps|
    ensures |r| == |ps|
  {
    if js == [] then ps
    else PairStep(PairFold(ps, i, js[..|js| - 1], separationThresholdSq, pairForce), i, js[|js| - 1], separationThresholdSq, pairForce)
  }

  /** Pair repulsion against js and then j is pair repulsion against js + [j]. */
  lemma PairFoldSnoc(ps: seq<Particle>, i: nat, js: seq<nat>, j: nat, separationThresholdSq: real, pairForce: (real, real) -> (real, real))
    requires i < |ps| && j < |ps| && forall m :: 0 <= m < |js| ==> js[m] < |ps|
    ensures PairFold(ps, i, js + [j], separationThresholdSq, pairForce) ==
      PairStep(PairFold(ps, i, js, separationThresholdSq, pairForce), i, j, separationThresholdSq, pairForce)
  {
    assert (js + [j])[..|js|] == js;
  }

  /** One more entry of a cell: pair repulsion against the candidates of its first m + 1
      entries is the one against the first m, followed by entry m when it passes the id filter. */
  lemma CellScanStep(ps: seq<Particle>, ids: seq<int>, i: nat, cell: Cell, m: nat, separationThresholdSq: real, pairForce: (real, real) -> (real, real))
    requires i < |ps| == |ids| && m < |cell|
    requires forall t :: 0 <= t < |cell| ==> cell[t] < |ids|
    ensures var before := PairFold(ps, i, CellCandidates(ids, i, cell[..m]), separationThresholdSq, pairForce);
      PairFold(ps, i, CellCandidates(ids, i, cell[..m + 1]), separationThresholdSq, pairForce) ==
        if ids[cell[m]] <= ids[i] then before else PairStep(before, i, cell[m], separationThresholdSq, pairForce)
  {
    var done := CellCandidates(ids, i, cell[..m]);
    CellCandidatesStep(ids, i, cell, m);
    if ids[cell[m]] <= ids[i] {
      assert done + [] == done;
    } else {
      PairFoldSnoc(ps, i, done, cell[m], separationThresholdSq, pairForce);
    }
  }



  /** The particles after the inner loop over a cell has visited its first m entries: an
      entry whose id (in ids, the ids at the start of the pass) is not larger than particle
      i's is skipped, any other one gets the pair step. */
  function CellPass(ps: seq<Particle>, ids: seq<int>, i: nat, cell: Cell, m: nat, separationThresholdSq: real, pairForce: (real, real) -> (real, real)): (r: seq<Particle>)
    requires i < |ps| == |ids| && m <= |cell| && forall t :: 0 <= t < |cell| ==> cell[t] < |ps|
    ensures |r| == |ps|
  {
    if m == 0 then ps
    else
      var prev := CellPass(ps, ids, i, cell, m - 1, separationThresholdSq, pairForce);
      var j := cell[m - 1];
      if ids[j] <= ids[i] then prev else PairStep(prev, i, j, separationThresholdSq, pairForce)
  }

  /** Visiting a cell entry by entry is pair repulsion against the cell's candidates. */
  lemma {:induction false} CellPassIsPairFold(ps: seq<Particle>, ids: seq<int>, i: nat, cell: Cell, m: nat, separationThresholdSq: real, pairForce: (real, real) -> (real, real))
    requires i < |ps| == |ids| && m <= |cell| && forall t :: 0 <= t < |cell| ==> cell[t] < |ps|
    ensures CellPass(ps, ids, i, cell, m, separationThresholdSq, pairForce) == PairFold(ps, i, CellCandidates(ids, i, cell[..m]), separationThresholdSq, pairForce)
  {
    if m > 0 {
      CellPassIsPairFold(ps, ids, i, cell, m - 1, separationThresholdSq, pairForce);
      CellScanStep(ps, ids, i, cell, m - 1, separationThresholdSq, pairForce);
    } else {
      assert cell[..0] == [];
    }
  }

  /** Visiting a cell changes velocities only. */
  lemma {:induction false} CellPassBodies(ps: seq<Particle>, ids: seq<int>, i: nat, cell: Cell, m: nat, separationThresholdSq: real, pairForce: (real, real) -> (real, real))
    requires i < |ps| == |ids| && m <= |cell| && forall t :: 0 <= t < |cell| ==> cell[t] < |ps|
    ensures SameBodies(CellPass(ps, ids, i, cell, m, separationThresholdSq, pairForce), ps)
  {
    if m > 0 {
      CellPassBodies(ps, ids, i, cell, m - 1, separationThresholdSq, pairForce);
      PairStepBodies(CellPass(ps, ids, i, cell, m - 1, separationThresholdSq, pairForce), i, cell[m - 1], separationThresholdSq, pairForce);
    }
  }

  /** The particles after the scan has visited the first k cells of the block around
      (row, col); cells outside the grid are skipped. */
  function BlockPass(ps: seq<Particle>, ids: seq<int>, g: Grid, rows: nat, cols: nat, i: nat, row: int, col: int, k: nat,
                     separationThresholdSq: real, pairForce: (real, real) -> (real, real)): (r: seq<Particle>)
    requires i < |ps| == |ids| && Shaped(g, rows, cols) && IndicesBelow(g, |ps|) && k <= 9
    ensures |r| == |ps|
  {
    if k == 0 then ps
    else
      var prev := BlockPass(ps, ids, g, rows, cols, i, row, col, k - 1, separationThresholdSq, pairForce);
      var rc := BlockCell(row, col, k - 1);
      if InGrid(rows, cols, rc.0, rc.1) then CellPass(prev, ids, i, g[rc.0][rc.1], |g[rc.0][rc.1]|, separationThresholdSq, pairForce)
      else prev
  }

  /** Visiting the block cell by cell is pair repulsion against the block's candidates. */
  lemma {:induction false} BlockPassIsPairFold(ps: seq<Particle>, ids: seq<int>, g: Grid, rows: nat, cols: nat, i: nat, row: int, col: int, k: nat,
                                              separationThresholdSq: real, pairForce: (real, real) -> (real, real))
    requires i < |ps| == |ids| && Shaped(g, rows, cols) && IndicesBelow(g, |ps|) && k <= 9
    ensures BlockPass(ps, ids, g, rows, cols, i, row, col, k, separationThresholdSq, pairForce) ==
      PairFold(ps, i, BlockCandidates(ids, g, rows, cols, i, row, col, k), separationThresholdSq, pairForce)
  {
    if k > 0 {
      BlockPassIsPairFold(ps, ids, g, rows, cols, i, row, col, k - 1, separationThresholdSq, pairForce);
      var prev := BlockPass(ps, ids, g, rows, cols, i, row, col, k - 1, separationThresholdSq, pairForce);
      var before := BlockCandidates(ids, g, rows, cols, i, row, col, k - 1);
      var rc := BlockCell(row, col, k - 1);
      if InGrid(rows, cols, rc.0, rc.1) {
        var cell := g[rc.0][rc.1];
        CellPassIsPairFold(prev, ids, i, cell, |cell|, separationThresholdSq, pairForce);
        assert cell[..|cell|] == cell;
        PairFoldConcat(ps, i, before, CellCandidates(ids, i, cell), separationThresholdSq, pairForce);
      } else {
        assert before + [] == before;
      }
    }
  }

  /** Visiting the block changes velocities only. */
  lemma {:induction false} BlockPassBodies(ps: seq<Particle>, ids: seq<int>, g: Grid, rows: nat, cols: nat, i: nat, row: int, col: int, k: nat,
                                          separationThresholdSq: real, pairForce: (real, real) -> (real, real))
    requires i < |ps| == |ids| && Shaped(g, rows, cols) && IndicesBelow(g, |ps|) && k <= 9
    ensures SameBodies(BlockPass(ps, ids, g, rows, cols, i, row, col, k, separationThresholdSq, pairForce), ps)
  {
    if k > 0 {
      BlockPassBodies(ps, ids, g, rows, cols, i, row, col, k - 1, separationThresholdSq, pairForce);
      var prev := BlockPass(ps, ids, g, rows, cols, i, row, col, k - 1, separationThresholdSq, pairForce);
      var rc := BlockCell(row, col, k - 1);
      if InGrid(rows, cols, rc.0, rc.1) {
        CellPassBodies(prev, ids, i, g[rc.0][rc.1], |g[rc.0][rc.1]|, separationThresholdSq, pairForce);
      }
    }
  }

  /** Pair repulsion against a + b is pair repulsion against a, then against b. */
  lemma {:induction false} PairFoldConcat(ps: seq<Particle>, i: nat, a: seq<nat>, b: seq<nat>, separationThresholdSq: real, pairForce: (real, real) -> (real, real))
    requires i < |ps| && (forall m :: 0 <= m < |a| ==> a[m] < |ps|) && (forall m :: 0 <= m < |b| ==> b[m] < |ps|)
    ensures PairFold(ps, i, a + b, separationThresholdSq, pairForce) ==
      PairFold(PairFold(ps, i, a, separationThresholdSq, pairForce), i, b, separationThresholdSq, pairForce)
    decreases |b|
  {
    if b != [] {
      var front, last := b[..|b| - 1], b[|b| - 1];
      assert b == front + [last];
      var af := a + front;
      assert a + b == af + [last];
      assert forall m :: 0 <= m < |af| ==> af[m] < |ps|;
      var mid := PairFold(ps, i, a, separationThresholdSq, pairForce);
      PairFoldConcat(ps, i, a, front, separationThresholdSq, pairForce);
      PairFoldSnoc(ps, i, af, last, separationThresholdSq, pairForce);
      PairFoldSnoc(mid, i, front, last, separationThresholdSq, pairForce);
    } else {
      assert a + b == a;
    }
  }

  /** One iteration of the outer loop: mouse repulsion of particle i, then pair repulsion
      against each particle of its scan. */
  function HandleParticle(ps: seq<Particle>, i: nat, scan: seq<nat>, mouseX: real, mouseY: real, separationThresholdSq: real,
                          mouseForce: (real, real) -> (real, real), pairForce: (real, real) -> (real, real)): (r: seq<Particle>)
    requires i < |ps| && forall m :: 0 <= m < |scan| ==> scan[m] < |ps|
    ensures |r| == |ps|
  {
    PairFold(MouseStep(ps, i, mouseX, mouseY, mouseForce), i, scan, separationThresholdSq, pairForce)
  }

  /** The particles after the force pass has handled particles 0 .. n-1. */
  function ForcePass(ps: seq<Particle>, scans: seq<seq<nat>>, mouseX: real, mouseY: real, separationThresholdSq: real,
                     mouseForce: (real, real) -> (real, real), pairForce: (real, real) -> (real, real), n: nat): (r: seq<Particle>)
    requires n <= |ps| == |scans| && ScansValid(scans, |ps|)
    ensures |r| == |ps|
  {
    if n == 0 then ps
    else
      HandleParticle(ForcePass(ps, scans, mouseX, mouseY, separationThresholdSq, mouseForce, pairForce, n - 1),
                     n - 1, scans[n - 1], mouseX, mouseY, separationThresholdSq, mouseForce, pairForce)
  }

  /** Pair repulsion of i against j changes velocities only. */
  lemma PairStepBodies(ps: seq<Particle>, i: nat, j: nat, separationThresholdSq: real, pairForce: (real, real) -> (real, real))
    requires i < |ps| && j < |ps|
    ensures SameBodies(PairStep(ps, i, j, separationThresholdSq, pairForce), ps)
  {
  }

  /** Pair repulsion of i against each of js changes velocities only. */
  lemma {:induction false} PairFoldBodies(ps: seq<Particle>, i: nat, js: seq<nat>, separationThresholdSq: real, pairForce: (real, real) -> (real, real))
    requires i < |ps| && forall m :: 0 <= m < |js| ==> js[m] < |ps|
    ensures SameBodies(PairFold(ps, i, js, separationThresholdSq, pairForce), ps)
  {
    if js != [] {
      var before := PairFold(ps, i, js[..|js| - 1], separationThresholdSq, pairForce);
      PairFoldBodies(ps, i, js[..|js| - 1], separationThresholdSq, pairForce);
      PairStepBodies(before, i, js[|js| - 1], separationThresholdSq, pairForce);
    }
  }

  /** Handling one particle changes velocities only. */
  lemma HandleParticleBodies(ps: seq<Particle>, i: nat, scan: seq<nat>, mouseX: real, mouseY: real, separationThresholdSq: real,
                             mouseForce: (real, real) -> (real, real), pairForce: (real, real) -> (real, real))
    requires i < |ps| && forall m :: 0 <= m < |scan| ==> scan[m] < |ps|
    ensures SameBodies(HandleParticle(ps, i, scan, mouseX, mouseY, separationThresholdSq, mouseForce, pairForce), ps)
  {
    PairFoldBodies(MouseStep(ps, i, mouseX, mouseY, mouseForce), i, scan, separationThresholdSq, pairForce);
  }

  /** The force pass changes velocities only: positions, ids, sizes and colours stay. */
  lemma {:induction false} ForcePassBodies(ps: seq<Particle>, scans: seq<seq<nat>>, mouseX: real, mouseY: real, separationThresholdSq: real,
                                          mouseForce: (real, real) -> (real, real), pairForce: (real, real) -> (real, real), n: nat)
    requires n <= |ps| == |scans| && ScansValid(scans, |ps|)
    ensures SameBodies(ForcePass(ps, scans, mouseX, mouseY, separationThresholdSq, mouseForce, pairForce, n), ps)
  {
    if n > 0 {
      ForcePassBodies(ps, scans, mouseX, mouseY, separationThresholdSq, mouseForce, pairForce, n - 1);
      HandleParticleBodies(ForcePass(ps, scans, mouseX, mouseY, separationThresholdSq, mouseForce, pairForce, n - 1),
                           n - 1, scans[n - 1], mouseX, mouseY, separationThresholdSq, mouseForce, pairForce);
    }
  }

  /** Step n of the force pass over the scans of a grid, in the form the loop takes it:
      particle n still stands where it stood, the mouse step keeps every id, and the pass
      then visits the 3x3 block around particle n's cell with the ids of the start. */
  lemma ForcePassStep(ps: seq<Particle>, g: Grid, rows: nat, cols: nat, width: real, height: real, mouseX: real, mouseY: real,
                      separationThresholdSq: real, mouseForce: (real, real) -> (real, real), pairForce: (real, real) -> (real, real),
                      n: nat, before: seq<Particle>)
    requires Shaped(g, rows, cols) && IndicesBelow(g, |ps|) && n < |ps|
    requires before == ForcePass(ps, Scans(ps, g, rows, cols, width, height), mouseX, mouseY, separationThresholdSq, mouseForce, pairForce, n)
    ensures |before| == |ps| && before[n].x == ps[n].x && before[n].y == ps[n].y
    ensures Ids(MouseStep(before, n, mouseX, mouseY, mouseForce)) == Ids(ps)
    ensures ForcePass(ps, Scans(ps, g, rows, cols, width, height), mouseX, mouseY, separationThresholdSq, mouseForce, pairForce, n + 1) ==
      BlockPass(MouseStep(before, n, mouseX, mouseY, mouseForce), Ids(ps), g, rows, cols, n,
                CellIndex(ps[n].y, height), CellIndex(ps[n].x, width), 9, separationThresholdSq, pairForce)
  {
    var scans := Scans(ps, g, rows, cols, width, height);
    var mid := MouseStep(before, n, mouseX, mouseY, mouseForce);
    ForcePassBodies(ps, scans, mouseX, mouseY, separationThresholdSq, mouseForce, pairForce, n);
    SameBodiesAt(before, ps, n);
    assert SameBodies(mid, ps);
    SameBodiesIds(mid, ps);
    BlockPassIsPairFold(mid, Ids(ps), g, rows, cols, n, CellIndex(ps[n].y, height), CellIndex(ps[n].x, width), 9, separationThresholdSq, pairForce);
  }

  /** The sum of all velocities. */
  function VelocitySum(ps: seq<Particle>): (real, real) {
    if ps == [] then (0.0, 0.0)
    else
      var s := VelocitySum(ps[..|ps| - 1]);
      (s.0 + ps[|ps| - 1].vx, s.1 + ps[|ps| - 1].vy)
  }

  /** The sum of the mouse forces received by particles 0 .. n-1. */
  function MouseImpulse(ps: seq<Particle>, mouseX: real, mouseY: real, mouseForce: (real, real) -> (real, real), n: nat): (real, real)
    requires n <= |ps|
  {
    if n == 0 then (0.0, 0.0)
    else
      var s := MouseImpulse(ps, mouseX, mouseY, mouseForce, n - 1);
      var f := MouseForceOn(ps[n - 1].x, ps[n - 1].y, mouseX, mouseY, mouseForce);
      (s.0 + f.0, s.1 + f.1)
  }

  /** The mouse force a particle receives: none outside the repulsion band. */
  function MouseForceOn(x: real, y: real, mouseX: real, mouseY: real, mouseForce: (real, real) -> (real, real)): (real, real) {
    if MouseRepels(x, y, mouseX, mouseY) then mouseForce(x - mouseX, y - mouseY) else (0.0, 0.0)
  }

  /** Mouse repulsion of one particle adds exactly that particle's mouse force to the velocity sum. */
  lemma MouseStepSum(ps: seq<Particle>, i: nat, mouseX: real, mouseY: real, mouseForce: (real, real) -> (real, real))
    requires i < |ps|
    ensures VelocitySum(MouseStep(ps, i, mouseX, mouseY, mouseForce)).0 == VelocitySum(ps).0 + MouseForceOn(ps[i].x, ps[i].y, mouseX, mouseY, mouseForce).0
    ensures VelocitySum(MouseStep(ps, i, mouseX, mouseY, mouseForce)).1 == VelocitySum(ps).1 + MouseForceOn(ps[i].x, ps[i].y, mouseX, mouseY, mouseForce).1
  {
    if MouseRepels(ps[i].x, ps[i].y, mouseX, mouseY) {
      VelocitySumUpdate(ps, i, Push(ps[i], mouseForce(ps[i].x - mouseX, ps[i].y - mouseY)));
    }
  }

  /** Replacing one particle changes the velocity sum by the difference of the two velocities. */
  lemma {:induction false} VelocitySumUpdate(ps: seq<Particle>, k: nat, p: Particle)
    requires k < |ps|
    ensures VelocitySum(ps[k := p]).0 == VelocitySum(ps).0 - ps[k].vx + p.vx
    ensures VelocitySum(ps[k := p]).1 == VelocitySum(ps).1 - ps[k].vy + p.vy
  {
    var n := |ps|;
    if k == n - 1 {
      assert ps[k := p][..n - 1] == ps[..n - 1];
    } else {
      assert ps[k := p][..n - 1] == ps[..n - 1][k := p];
      VelocitySumUpdate(ps[..n - 1], k, p);
    }
  }

  /** Equal and opposite changes to two different particles leave the velocity sum as it was. */
  lemma ExchangeKeepsSum(ps: seq<Particle>, i: nat, j: nat, f: (real, real))
    requires i < |ps| && j < |ps| && i != j
    ensures VelocitySum(Exchange(ps, i, j, f)).0 == VelocitySum(ps).0
    ensures VelocitySum(Exchange(ps, i, j, f)).1 == VelocitySum(ps).1
  {
    var a := ps[i := Push(ps[i], f)];
    VelocitySumUpdate(ps, i, Push(ps[i], f));
    assert a[j] == ps[j];
    VelocitySumUpdate(a, j, Push(ps[j], Neg(f)));
  }

  /** One pair step leaves the velocity sum as it was. */
  lemma PairStepKeepsSum(ps: seq<Particle>, i: nat, j: nat, separationThresholdSq: real, pairForce: (real, real) -> (real, real))
    requires i < |ps| && j < |ps| && i != j
    ensures VelocitySum(PairStep(ps, i, j, separationThresholdSq, pairForce)).0 == VelocitySum(ps).0
    ensures VelocitySum(PairStep(ps, i, j, separationThresholdSq, pairForce)).1 == VelocitySum(ps).1
  {
    if PairRepels(ps[i], ps[j], separationThresholdSq) {
      ExchangeKeepsSum(ps, i, j, Force(pairForce, ps[i].x - ps[j].x, ps[i].y - ps[j].y));
    }
  }

  /** Pair repulsion against partners other than i leaves the velocity sum as it was. */
  lemma {:induction false} PairFoldKeepsSum(ps: seq<Particle>, i: nat, js: seq<nat>, separationThresholdSq: real, pairForce: (real, real) -> (real, real))
    requires i < |ps| && forall m :: 0 <= m < |js| ==> js[m] < |ps| && js[m] != i
    ensures VelocitySum(PairFold(ps, i, js, separationThresholdSq, pairForce)).0 == VelocitySum(ps).0
    ensures VelocitySum(PairFold(ps, i, js, separationThresholdSq, pairForce)).1 == VelocitySum(ps).1
  {
    if js != [] {
      PairFoldKeepsSum(ps, i, js[..|js| - 1], separationThresholdSq, pairForce);
      PairStepKeepsSum(PairFold(ps, i, js[..|js| - 1], separationThresholdSq, pairForce), i, js[|js| - 1], separationThresholdSq, pairForce);
    }
  }

  /** Handling particle i adds its mouse force to the velocity sum and nothing else. */
  lemma HandleParticleSum(ps: seq<Particle>, i: nat, scan: seq<nat>, mouseX: real, mouseY: real, separationThresholdSq: real,
                          mouseForce: (real, real) -> (real, real), pairForce: (real, real) -> (real, real))
    requires i < |ps| && forall m :: 0 <= m < |scan| ==> scan[m] < |ps| && scan[m] != i
    ensures VelocitySum(HandleParticle(ps, i, scan, mouseX, mouseY, separationThresholdSq, mouseForce, pairForce)).0
      == VelocitySum(ps).0 + MouseForceOn(ps[i].x, ps[i].y, mouseX, mouseY, mouseForce).0
    ensures VelocitySum(HandleParticle(ps, i, scan, mouseX, mouseY, separationThresholdSq, mouseForce, pairForce)).1
      == VelocitySum(ps).1 + MouseForceOn(ps[i].x, ps[i].y, mouseX, mouseY, mouseForce).1
  {
    MouseStepSum(ps, i, mouseX, mouseY, mouseForce);
    PairFoldKeepsSum(MouseStep(ps, i, mouseX, mouseY, mouseForce), i, scan, separationThresholdSq, pairForce);
  }

  lemma Accumulate(total: real, sofar: real, base: real, impulse: real, f: real, impulse': real)
    requires total == sofar + f
    requires sofar == base + impulse
    requires impulse' == impulse + f
    ensures total == base + impulse'
  {
  }

  /** Handling particle n-1 adds its mouse force to the velocity sum of the pass so far. */
  lemma ForcePassStepSum(ps: seq<Particle>, scans: seq<seq<nat>>, mouseX: real, mouseY: real, separationThresholdSq: real,
                         mouseForce: (real, real) -> (real, real), pairForce: (real, real) -> (real, real), n: nat)
    requires 0 < n <= |ps| == |scans| && ScansValid(scans, |ps|)
    ensures VelocitySum(ForcePass(ps, scans, mouseX, mouseY, separationThresholdSq, mouseForce, pairForce, n)).0
      == VelocitySum(ForcePass(ps, scans, mouseX, mouseY, separationThresholdSq, mouseForce, pairForce, n - 1)).0
         + MouseForceOn(ps[n - 1].x, ps[n - 1].y, mouseX, mouseY, mouseForce).0
    ensures VelocitySum(ForcePass(ps, scans, mouseX, mouseY, separationThresholdSq, mouseForce, pairForce, n)).1
      == VelocitySum(ForcePass(ps, scans, mouseX, mouseY, separationThresholdSq, mouseForce, pairForce, n - 1)).1
         + MouseForceOn(ps[n - 1].x, ps[n - 1].y, mouseX, mouseY, mouseForce).1
  {
    var before := ForcePass(ps, scans, mouseX, mouseY, separationThresholdSq, mouseForce, pairForce, n - 1);
    HandleParticleSum(before, n - 1, scans[n - 1], mouseX, mouseY, separationThresholdSq, mouseForce, pairForce);
    ForcePassBodies(ps, scans, mouseX, mouseY, separationThresholdSq, mouseForce, pairForce, n - 1);
    SameBodiesAt(before, ps, n - 1);
  }

  /** Whatever the scans and the pair force, the force pass changes the sum of all velocities
      by exactly the mouse forces: particle-particle forces cancel in pairs. */
  lemma {:induction false} ForcePassVelocitySum(ps: seq<Particle>, scans: seq<seq<nat>>, mouseX: real, mouseY: real, separationThresholdSq: real,
                                               mouseForce: (real, real) -> (real, real), pairForce: (real, real) -> (real, real), n: nat)
    requires n <= |ps| == |scans| && ScansValid(scans, |ps|)
    ensures VelocitySum(ForcePass(ps, scans, mouseX, mouseY, separationThresholdSq, mouseForce, pairForce, n)).0
      == VelocitySum(ps).0 + MouseImpulse(ps, mouseX, mouseY, mouseForce, n).0
    ensures VelocitySum(ForcePass(ps, scans, mouseX, mouseY, separationThresholdSq, mouseForce, pairForce, n)).1
      == VelocitySum(ps).1 + MouseImpulse(ps, mouseX, mouseY, mouseForce, n).1
  {
    if n > 0 {
      ForcePassVelocitySum(ps, scans, mouseX, mouseY, separationThresholdSq, mouseForce, pairForce, n - 1);
      ForcePassStepSum(ps, scans, mouseX, mouseY, separationThresholdSq, mouseForce, pairForce, n);
      var f := MouseForceOn(ps[n - 1].x, ps[n - 1].y, mouseX, mouseY, mouseForce);
      var before := ForcePass(ps, scans, mouseX, mouseY, separationThresholdSq, mouseForce, pairForce, n - 1);
      var after := ForcePass(ps, scans, mouseX, mouseY, separationThresholdSq, mouseForce, pairForce, n);
      var impulse, impulse' := MouseImpulse(ps, mouseX, mouseY, mouseForce, n - 1), MouseImpulse(ps, mouseX, mouseY, mouseForce, n);
      Accumulate(VelocitySum(after).0, VelocitySum(before).0, VelocitySum(ps).0, impulse.0, f.0, impulse'.0);
      Accumulate(VelocitySum(after).1, VelocitySum(before).1, VelocitySum(ps).1, impulse.1, f.1, impulse'.1);
    }
  }

  /** With a separation threshold no larger than MinDistForPairCalcSq no pair qualifies, so
      pair repulsion changes nothing. */
  lemma {:induction false} PairFoldInert(ps: seq<Particle>, i: nat, js: seq<nat>, separationThresholdSq: real, pairForce: (real, real) -> (real, real))
    requires i < |ps| && forall m :: 0 <= m < |js| ==> js[m] < |ps|
    requires separationThresholdSq <= MinDistForPairCalcSq
    ensures PairFold(ps, i, js, separationThresholdSq, pairForce) == ps
  {
    if js != [] {
      PairFoldInert(ps, i, js[..|js| - 1], separationThresholdSq, pairForce);
    }
  }

  /** With such a threshold (the configured one is 0) each particle's velocity changes by
      its own mouse force and nothing else changes. */
  lemma {:induction false} ForcePassMouseOnly(ps: seq<Particle>, scans: seq<seq<nat>>, mouseX: real, mouseY: real, separationThresholdSq: real,
                                             mouseForce: (real, real) -> (real, real), pairForce: (real, real) -> (real, real), n: nat)
    requires n <= |ps| == |scans| && ScansValid(scans, |ps|)
    requires separationThresholdSq <= MinDistForPairCalcSq
    ensures forall k :: 0 <= k < |ps| ==>
      ForcePass(ps, scans, mouseX, mouseY, separationThresholdSq, mouseForce, pairForce, n)[k]
        == if k < n && MouseRepels(ps[k].x, ps[k].y, mouseX, mouseY) then Push(ps[k], mouseForce(ps[k].x - mouseX, ps[k].y - mouseY)) else ps[k]
  {
    if n > 0 {
      var before := ForcePass(ps, scans, mouseX, mouseY, separationThresholdSq, mouseForce, pairForce, n - 1);
      ForcePassMouseOnly(ps, scans, mouseX, mouseY, separationThresholdSq, mouseForce, pairForce, n - 1);
      ForcePassInertStep(ps, scans, mouseX, mouseY, separationThresholdSq, mouseForce, pairForce, n);
      assert before[n - 1] == ps[n - 1];
    }
  }

  /** With such a threshold, step n of the pass is the mouse step alone. */
  lemma ForcePassInertStep(ps: seq<Particle>, scans: seq<seq<nat>>, mouseX: real, mouseY: real, separationThresholdSq: real,
                           mouseForce: (real, real) -> (real, real), pairForce: (real, real) -> (real, real), n: nat)
    requires 0 < n <= |ps| == |scans| && ScansValid(scans, |ps|)
    requires separationThresholdSq <= MinDistForPairCalcSq
    ensures ForcePass(ps, scans, mouseX, mouseY, separationThresholdSq, mouseForce, pairForce, n) ==
      MouseStep(ForcePass(ps, scans, mouseX, mouseY, separationThresholdSq, mouseForce, pairForce, n - 1), n - 1, mouseX, mouseY, mouseForce)
  {
    var before := ForcePass(ps, scans, mouseX, mouseY, separationThresholdSq, mouseForce, pairForce, n - 1);
    PairFoldInert(MouseStep(before, n - 1, mouseX, mouseY, mouseForce), n - 1, scans[n - 1], separationThresholdSq, pairForce);
  }

  /** An offset at least InteractionRadius along one axis is outside the interaction radius. */
  lemma FarOffset(dx: real, dy: real)
    requires dx >= InteractionRadius || dy >= InteractionRadius
    ensures DistSq(dx, dy) >= InteractionRadius * InteractionRadius
  {
  }

  /** The mouse does not push a particle lying at least InteractionRadius to its right or
      below it. */
  lemma OutOfReach(x: real, y: real, mouseX: real, mouseY: real)
    requires x - mouseX >= InteractionRadius || y - mouseY >= InteractionRadius
    ensures !MouseRepels(x, y, mouseX, mouseY)
  {
    FarOffset(x - mouseX, y - mouseY);
  }

  /** With the configured separation threshold and the mouse parked, a force pass over
      particles that are not far left of the banner changes nothing. */
  lemma ForcePassAtRest(ps: seq<Particle>, scans: seq<seq<nat>>, mouseForce: (real, real) -> (real, real), pairForce: (real, real) -> (real, real))
    requires |ps| == |scans| && ScansValid(scans, |ps|)
    requires forall k :: 0 <= k < |ps| ==> ps[k].x >= MouseSentinel + InteractionRadius
    ensures ForcePass(ps, scans, MouseSentinel, MouseSentinel, SeparationThresholdSq, mouseForce, pairForce, |ps|) == ps
  {
    var r := ForcePass(ps, scans, MouseSentinel, MouseSentinel, SeparationThresholdSq, mouseForce, pairForce, |ps|);
    ParkedMouseMovesNothing(ps, scans, mouseForce, pairForce);
  }

  lemma ParkedMouseMovesNothing(ps: seq<Particle>, scans: seq<seq<nat>>, mouseForce: (real, real) -> (real, real), pairForce: (real, real) -> (real, real))
    requires |ps| == |scans| && ScansValid(scans, |ps|)
    requires forall k :: 0 <= k < |ps| ==> ps[k].x >= MouseSentinel + InteractionRadius
    ensures forall k :: 0 <= k < |ps| ==>
      ForcePass(ps, scans, MouseSentinel, MouseSentinel, SeparationThresholdSq, mouseForce, pairForce, |ps|)[k] == ps[k]
  {
    ForcePassMouseOnly(ps, scans, MouseSentinel, MouseSentinel, SeparationThresholdSq, mouseForce, pairForce, |ps|);
    OutOfReachAll(ps, MouseSentinel, MouseSentinel);
  }

  /** The mouse repels none of the particles lying at least InteractionRadius to its right. */
  lemma OutOfReachAll(ps: seq<Particle>, mouseX: real, mouseY: real)
    requires forall k :: 0 <= k < |ps| ==> ps[k].x - mouseX >= InteractionRadius
    ensures forall k :: 0 <= k < |ps| ==> !MouseRepels(ps[k].x, ps[k].y, mouseX, mouseY)
  {
    forall k | 0 <= k < |ps| ensures !MouseRepels(ps[k].x, ps[k].y, mouseX, mouseY) {
      OutOfReach(ps[k].x, ps[k].y, mouseX, mouseY);
    }
  }
}
