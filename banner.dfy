/** The interactive banner: the state the page script keeps in its closure (banner size,
    mouse position, particles, spatial grid, id counter) and the steps that change it,
    each proved against the functional definitions of the other modules. */
module Banner {
  import opened Settings
  import opened Geometry
  import opened Particles
  import opened SpatialGrid
  import opened Neighbours
  import opened Forces
  import opened Motion
  import opened Lines

  class ParticleField {
    /** bannerRect.width and bannerRect.height */
    var width: real
    var height: real
    var mouseX: real
    var mouseY: real
    var particles: seq<Particle>
    /** Each cell lists positions in particles. */
    var grid: Grid
    var gridRows: nat
    var gridCols: nat
    /** Particle.nextId */
    var nextId: int
    /** The squared distance below which particles push each other apart; the script's
        configuration gives it the value SeparationThresholdSq. */
    const separationThresholdSq: real

    /** The banner has a size, the grid has gridRows rows of gridCols cells, every entry
        names a particle, and no particle is entered twice. */
    ghost predicate Valid()
      reads this
    {
      0.0 <= width && 0.0 <= height &&
      Shaped(grid, gridRows, gridCols) && IndicesBelow(grid, |particles|) && AtMostOnce(grid)
    }

    /** The state before the first resize: no particles, an empty grid and the mouse parked
        far off the banner. */
    constructor(width: real, height: real)
      requires 0.0 <= width && 0.0 <= height
      ensures Valid()
      ensures this.width == width && this.height == height
      ensures mouseX == MouseSentinel && mouseY == MouseSentinel
      ensures particles == [] && grid == [] && gridRows == 0 && gridCols == 0 && nextId == 0
      ensures separationThresholdSq == SeparationThresholdSq
    {
      separationThresholdSq := SeparationThresholdSq;
      this.width := width;
      this.height := height;
      mouseX := MouseSentinel;
      mouseY := MouseSentinel;
      particles := [];
      grid := [];
      gridRows := 0;
      gridCols := 0;
      nextId := 0;
    }

    /** Sizes the grid for the banner, ceil(height / cell) rows by ceil(width / cell)
        columns of empty cells, and resets the id counter. */
    method InitializeGrid()
      requires 0.0 <= width && 0.0 <= height
      modifies this`grid, this`gridRows, this`gridCols, this`nextId
      ensures Valid()
      ensures gridCols == CellCount(width) && gridRows == CellCount(height)
      ensures Shaped(grid, gridRows, gridCols) && AllEmpty(grid)
      ensures nextId == 0
    {
      gridCols := CellCount(width);
      gridRows := CellCount(height);
      grid := [];
      for i := 0 to gridRows
        invariant Shaped(grid, i, gridCols) && AllEmpty(grid)
        modifies this`grid
      {
        var row: seq<Cell> := [];
        for j := 0 to gridCols
          invariant |row| == j && forall c :: 0 <= c < j ==> row[c] == []
        {
          row := row + [[]];
        }
        grid := grid + [row];
      }
      nextId := 0;
    }

    /** Takes the banner's new size and rebuilds the grid for it. */
    method ResizeCanvas(rectWidth: real, rectHeight: real)
      requires 0.0 <= rectWidth && 0.0 <= rectHeight
      modifies this`width, this`height, this`grid, this`gridRows, this`gridCols, this`nextId
      ensures Valid()
      ensures width == rectWidth && height == rectHeight
      ensures gridCols == CellCount(rectWidth) && gridRows == CellCount(rectHeight)
      ensures Shaped(grid, gridRows, gridCols) && AllEmpty(grid)
      ensures nextId == 0
    {
      width := rectWidth;
      height := rectHeight;
      InitializeGrid();
    }

    /** The particle constructor: the next id from the counter, the given position, and
        velocity, size and accent from the draws. */
    method NewParticle(x: real, y: real, draws: Spawn) returns (p: Particle)
      requires Valid()
      modifies this`nextId
      ensures Valid()
      ensures p == Spawned(old(nextId), x, y, draws)
      ensures nextId == old(nextId) + 1
    {
      p := Particle(nextId, x, y, (draws.rvx - 0.5) * BaseSpeed, (draws.rvy - 0.5) * BaseSpeed,
                    draws.rsize * (MaxParticleSize - MinParticleSize) + MinParticleSize,
                    draws.raccent < AccentProbability);
      nextId := nextId + 1;
    }

    /** Drops all particles, resizes to the banner's current size and creates NumParticles
        particles at the drawn positions, numbered from 0. */
    method CreateParticles(rectWidth: real, rectHeight: real, spawns: seq<Spawn>)
      requires 0.0 <= rectWidth && 0.0 <= rectHeight
      requires |spawns| == NumParticles
      modifies this`particles, this`width, this`height, this`grid, this`gridRows, this`gridCols, this`nextId
      ensures Valid()
      ensures width == rectWidth && height == rectHeight
      ensures gridCols == CellCount(rectWidth) && gridRows == CellCount(rectHeight)
      ensures Shaped(grid, gridRows, gridCols) && AllEmpty(grid)
      ensures particles == Population(spawns, rectWidth, rectHeight)
      ensures forall k :: 0 <= k < |particles| ==> particles[k].id == k
      ensures nextId == NumParticles
    {
      particles := [];
      ResizeCanvas(rectWidth, rectHeight);
      for i := 0 to NumParticles
        invariant particles == Population(spawns[..i], width, height)
        invariant nextId == i
        invariant Valid() && AllEmpty(grid)
        modifies this`particles, this`nextId
      {
        var x := Scaled(spawns[i].rx, width);
        var y := Scaled(spawns[i].ry, height);
        var p := NewParticle(x, y, spawns[i]);
        PopulationSnoc(spawns, width, height, i);
        particles := particles + [p];
      }
      assert spawns[..NumParticles] == spawns;
    }

    /** Empties every cell, then enters each particle, in array order, in the cell of its
        clamped, floored position when that cell lies in the grid. */
    method UpdateGrid()
      requires Valid()
      modifies this`grid
      ensures Valid()
      ensures grid == Bucketed(particles, width, height, gridRows, gridCols, |particles|)
    {
      for r := 0 to gridRows
        invariant Shaped(grid, gridRows, gridCols)
        invariant forall r', c :: 0 <= r' < r && 0 <= c < gridCols ==> grid[r'][c] == []
        modifies this`grid
      {
        for c := 0 to gridCols
          invariant Shaped(grid, gridRows, gridCols)
          invariant forall r', c' :: 0 <= r' < r && 0 <= c' < gridCols ==> grid[r'][c'] == []
          invariant forall c' :: 0 <= c' < c ==> grid[r][c'] == []
        {
          grid := grid[r := grid[r][c := []]];
        }
      }
      BucketedCleared(particles, width, height, gridRows, gridCols, grid);
      for k := 0 to |particles|
        invariant grid == Bucketed(particles, width, height, gridRows, gridCols, k)
      {
        var particle := particles[k];
        var effectiveX := Max(0.0, Min(particle.x, width - 1.0));
        var effectiveY := Max(0.0, Min(particle.y, height - 1.0));
        var col := (effectiveX / GridCellSize).Floor;
        var row := (effectiveY / GridCellSize).Floor;
        BucketedPush(particles, width, height, gridRows, gridCols, k);
        if row >= 0 && row < gridRows && col >= 0 && col < gridCols {
          grid := grid[row := grid[row][col := grid[row][col] + [k]]];
        }
      }
      BucketedAtMostOnce(particles, width, height, gridRows, gridCols, |particles|);
    }

    /** Pair repulsion between particle i and each entry of one cell, in cell order,
        skipping entries whose id is not larger than particle i's. */
    method ScanCell(i: nat, cell: Cell, pairForce: (real, real) -> (real, real))
      requires i < |particles| && forall m :: 0 <= m < |cell| ==> cell[m] < |particles|
      modifies this`particles
      ensures particles == CellPass(old(particles), Ids(old(particles)), i, cell, |cell|, separationThresholdSq, pairForce)
    {
      var ps := particles;
      ghost var ps0, ids := particles, Ids(particles);
      for m := 0 to |cell|
        invariant ps == CellPass(ps0, ids, i, cell, m, separationThresholdSq, pairForce)
      {
        var j := cell[m];
        CellPassBodies(ps0, ids, i, cell, m, separationThresholdSq, pairForce);
        SameBodiesAt(ps, ps0, i);
        SameBodiesAt(ps, ps0, j);
        var p1, p2 := ps[i], ps[j];
        if p2.id <= p1.id {
          continue;
        }
        if PairRepels(p1, p2, separationThresholdSq) {
          var force := Force(pairForce, p1.x - p2.x, p1.y - p2.y);
          ps := ps[i := Push(ps[i], force)][j := Push(ps[j], Neg(force))];
        }
      }
      particles := ps;
    }

    /** Mouse repulsion of particle i: when the mouse is inside the interaction radius and
        more than 3 pixels away, the particle's velocity takes the mouse force. */
    method RepelFromMouse(i: nat, mx: real, my: real, mouseForce: (real, real) -> (real, real))
      requires i < |particles|
      modifies this`particles
      ensures particles == MouseStep(old(particles), i, mx, my, mouseForce)
    {
      var p1 := particles[i];
      if MouseRepels(p1.x, p1.y, mx, my) {
        var force := mouseForce(p1.x - mx, p1.y - my);
        particles := particles[i := Push(p1, force)];
      }
    }

    /** Pair repulsion between particle i and the candidates of the 3x3 block of cells
        around (p1Row, p1Col), row offset by row offset, column offset by column offset,
        skipping cells outside the grid. */
    method ScanNeighbours(i: nat, p1Row: int, p1Col: int, pairForce: (real, real) -> (real, real))
      requires Shaped(grid, gridRows, gridCols) && IndicesBelow(grid, |particles|) && i < |particles|
      modifies this`particles
      ensures particles == BlockPass(old(particles), Ids(old(particles)), grid, gridRows, gridCols, i, p1Row, p1Col, 9, separationThresholdSq, pairForce)
    {
      ghost var ps0, ids := particles, Ids(particles);
      for rowOffset := -1 to 2
        invariant particles == BlockPass(ps0, ids, grid, gridRows, gridCols, i, p1Row, p1Col, 3 * (rowOffset + 1), separationThresholdSq, pairForce)
      {
        for colOffset := -1 to 2
          invariant particles == BlockPass(ps0, ids, grid, gridRows, gridCols, i, p1Row, p1Col, 3 * (rowOffset + 1) + (colOffset + 1), separationThresholdSq, pairForce)
        {
          var checkRow := p1Row + rowOffset;
          var checkCol := p1Col + colOffset;
          ghost var k := KOf(rowOffset, colOffset);
          assert BlockCell(p1Row, p1Col, k) == (checkRow, checkCol);
          BlockPassBodies(ps0, ids, grid, gridRows, gridCols, i, p1Row, p1Col, k, separationThresholdSq, pairForce);
          SameBodiesIds(particles, ps0);
          if checkRow >= 0 && checkRow < gridRows && checkCol >= 0 && checkCol < gridCols {
            ScanCell(i, grid[checkRow][checkCol], pairForce);
          }
        }
      }
    }

    /** The force pass: for each particle in array order, mouse repulsion when the mouse is
        inside the interaction radius and more than 3 pixels away, then pair repulsion over
        the 3x3 block around the particle's cell. Positions do not change, so every
        particle's block is the one of its position at the start of the pass. */
    method CalculateAllForces(mouseForce: (real, real) -> (real, real), pairForce: (real, real) -> (real, real))
      requires Valid()
      modifies this`particles
      ensures Valid()
      ensures particles == ForcePass(old(particles), Scans(old(particles), grid, gridRows, gridCols, width, height),
                                     mouseX, mouseY, separationThresholdSq, mouseForce, pairForce, |old(particles)|)
    {
      ghost var ps0, g, rows, cols := particles, grid, gridRows, gridCols;
      var mx, my, w, h := mouseX, mouseY, width, height;
      for i := 0 to |particles|
        invariant particles == ForcePass(ps0, Scans(ps0, g, rows, cols, w, h), mx, my, separationThresholdSq, mouseForce, pairForce, i)
      {
        ForcePassStep(ps0, g, rows, cols, w, h, mx, my, separationThresholdSq, mouseForce, pairForce, i, particles);
        var p1 := particles[i];
        RepelFromMouse(i, mx, my, mouseForce);
        var p1Col := CellIndex(p1.x, w);
        var p1Row := CellIndex(p1.y, h);
        ScanNeighbours(i, p1Row, p1Col, pairForce);
      }
    }

    /** The physics step of every particle, in array order: damping and jitter, the speed
        limit, the move by the new velocity and the wrap at the edges of the banner. */
    method Integrate(jitters: seq<Jitter>, sqrt: real -> real)
      requires Valid() && |jitters| == |particles|
      modifies this`particles
      ensures Valid()
      ensures particles == Moved(old(particles), jitters, width, height, sqrt)
    {
      var ps := particles;
      ghost var ps0 := particles;
      for i := 0 to |ps|
        invariant |ps| == |ps0|
        invariant forall k :: 0 <= k < i ==> ps[k] == Stepped(ps0[k], jitters[k], width, height, sqrt)
        invariant forall k :: i <= k < |ps0| ==> ps[k] == ps0[k]
      {
        var q := StepParticle(ps[i], jitters[i], width, height, sqrt);
        ps := ps[i := q];
      }
      particles := ps;
    }

    /** The lines from particle i to the entries of one cell, in cell order, skipping
        entries whose id is not larger than particle i's. */
    method LinesInCell(i: nat, cell: Cell, fade: real -> real) returns (segs: seq<Segment>)
      requires i < |particles| && forall m :: 0 <= m < |cell| ==> cell[m] < |particles|
      ensures segs == CellLinks(particles, i, cell, |cell|, fade)
    {
      var ps := particles;
      segs := [];
      for m := 0 to |cell|
        invariant segs == CellLinks(ps, i, cell, m, fade)
      {
        var p1, p2 := ps[i], ps[cell[m]];
        if p2.id <= p1.id {
          continue;
        }
        var distanceSq := DistSq(p1.x - p2.x, p1.y - p2.y);
        if distanceSq < MaxLineDistanceSq {
          var opacity := Opacity(distanceSq, fade);
          if opacity > MinLineOpacity {
            segs := segs + [Link(i, cell[m], opacity)];
          }
        }
      }
    }

    /** The lines from particle i over the 3x3 block of cells around (p1Row, p1Col), row
        offset by row offset, column offset by column offset, skipping cells outside the grid. */
    method LinesAround(i: nat, p1Row: int, p1Col: int, fade: real -> real) returns (segs: seq<Segment>)
      requires Shaped(grid, gridRows, gridCols) && IndicesBelow(grid, |particles|) && i < |particles|
      ensures segs == BlockLinks(particles, grid, gridRows, gridCols, i, p1Row, p1Col, 9, fade)
    {
      segs := [];
      for rowOffset := -1 to 2
        invariant segs == BlockLinks(particles, grid, gridRows, gridCols, i, p1Row, p1Col, 3 * (rowOffset + 1), fade)
      {
        for colOffset := -1 to 2
          invariant segs == BlockLinks(particles, grid, gridRows, gridCols, i, p1Row, p1Col, 3 * (rowOffset + 1) + (colOffset + 1), fade)
        {
          var checkRow := p1Row + rowOffset;
          var checkCol := p1Col + colOffset;
          ghost var k := KOf(rowOffset, colOffset);
          assert BlockCell(p1Row, p1Col, k) == (checkRow, checkCol);
          if checkRow >= 0 && checkRow < gridRows && checkCol >= 0 && checkCol < gridCols {
            var cellSegs := LinesInCell(i, grid[checkRow][checkCol], fade);
            segs := segs + cellSegs;
          }
        }
      }
    }

    /** The line from particle i to the cursor, when the cursor is over the banner and the
        line passes the distance and opacity tests. */
    method CursorLine(i: nat, mouseIsActive: bool, fade: real -> real) returns (segs: seq<Segment>)
      requires i < |particles| && mouseIsActive == MouseIsActive(mouseX, mouseY)
      ensures segs == CursorLinks(particles, i, mouseX, mouseY, fade)
    {
      segs := [];
      if mouseIsActive {
        var p1 := particles[i];
        var distanceMouseSq := DistSq(p1.x - mouseX, p1.y - mouseY);
        if distanceMouseSq < MaxLineDistanceSq {
          var opacityMouse := Opacity(distanceMouseSq, fade);
          if opacityMouse > MinLineOpacity {
            segs := [CursorLink(i, opacityMouse)];
          }
        }
      }
    }

    /** The line pass of a frame: for each particle in array order, its lines over the 3x3
        block around its cell in the current grid, then its line to the cursor. */
    method DrawLines(fade: real -> real) returns (segs: seq<Segment>)
      requires Valid()
      ensures segs == FrameLinks(particles, Scans(particles, grid, gridRows, gridCols, width, height), mouseX, mouseY, fade)
      ensures NoSelfLink(segs) && NoRepeatedPair(segs)
    {
      ghost var ps, g, rows, cols := particles, grid, gridRows, gridCols;
      var mx, my, w, h := mouseX, mouseY, width, height;
      ghost var bs := FrameBlocks(ps, Scans(ps, g, rows, cols, w, h), mx, my, fade);
      var mouseIsActive := mouseX > -InteractionRadius && mouseY > -InteractionRadius;
      segs := [];
      for i := 0 to |particles|
        invariant segs == Flatten(bs[..i])
      {
        FrameLinksStep(ps, g, rows, cols, w, h, mx, my, fade, i, segs);
        var p1 := particles[i];
        var p1Col := CellIndex(p1.x, w);
        var p1Row := CellIndex(p1.y, h);
        var pairSegs := LinesAround(i, p1Row, p1Col, fade);
        var cursorSegs := CursorLine(i, mouseIsActive, fade);
        segs := segs + pairSegs + cursorSegs;
      }
      assert bs[..|ps|] == bs;
      NoSelfLinks(ps, Scans(ps, g, rows, cols, w, h), mx, my, fade);
      ScansDistinct(ps, g, rows, cols, w, h);
      LinkedOnce(ps, Scans(ps, g, rows, cols, w, h), mx, my, fade);
    }

    /** One frame: rebuild the grid, the force pass, the physics step, then the line pass.
        The line pass reads the grid built before the particles moved. */
    method AnimationFrame(jitters: seq<Jitter>, sqrt: real -> real, fade: real -> real,
                          mouseForce: (real, real) -> (real, real), pairForce: (real, real) -> (real, real))
      returns (segs: seq<Segment>)
      requires Valid() && |jitters| == |particles|
      modifies this`grid, this`particles
      ensures Valid()
      ensures grid == Bucketed(old(particles), width, height, gridRows, gridCols, |old(particles)|)
      ensures particles == Moved(ForcePass(old(particles), Scans(old(particles), grid, gridRows, gridCols, width, height),
                                           mouseX, mouseY, separationThresholdSq, mouseForce, pairForce, |old(particles)|),
                                 jitters, width, height, sqrt)
      ensures segs == FrameLinks(particles, Scans(particles, grid, gridRows, gridCols, width, height), mouseX, mouseY, fade)
    {
      UpdateGrid();
      CalculateAllForces(mouseForce, pairForce);
      Integrate(jitters, sqrt);
      segs := DrawLines(fade);
    }

    /** The cursor position relative to the banner's top-left corner; the banner's box is
        read again, so its size is taken as well. */
    method MouseMove(clientX: real, clientY: real, rectLeft: real, rectTop: real, rectWidth: real, rectHeight: real)
      requires Valid() && 0.0 <= rectWidth && 0.0 <= rectHeight
      modifies this`mouseX, this`mouseY, this`width, this`height
      ensures Valid()
      ensures mouseX == clientX - rectLeft && mouseY == clientY - rectTop
      ensures width == rectWidth && height == rectHeight
    {
      width := rectWidth;
      height := rectHeight;
      mouseX := clientX - rectLeft;
      mouseY := clientY - rectTop;
    }

    /** Parks the mouse far off the banner. */
    method MouseLeave()
      requires Valid()
      modifies this`mouseX, this`mouseY
      ensures Valid()
      ensures mouseX == MouseSentinel && mouseY == MouseSentinel
      ensures !MouseIsActive(mouseX, mouseY)
    {
      mouseX := -InteractionRadius * 5.0;
      mouseY := -InteractionRadius * 5.0;
    }
  }
}
