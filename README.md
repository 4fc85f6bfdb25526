# Particle banner: grid, pair scan and wrap step

This project models the bookkeeping behind the interactive particle banner of `js/app.js`.
The banner holds 120 particles. Each frame runs four steps:

1. It rebuilds a uniform spatial grid of 150-pixel cells.
2. It applies mouse repulsion and particle–particle repulsion. The pair force runs over the 3×3 block of cells around each particle.
3. It damps, jitters, speed-limits, moves and wraps every particle.
4. It strokes lines between near particles and from particles to the cursor.

The model's parts:

- `Banner.ParticleField` is a class. Its fields are the state the page script keeps in its closure: the banner size, the mouse position, the particle array, the grid and its dimensions, and the id counter.
- Its methods are the script's functions. Each method is proved against a functional definition:
  - `Bucketed` is the rebuilt grid.
  - `ForcePass` is the force pass.
  - `Moved` is the physics step.
  - `FrameLinks` is the line pass.
- Lemmas about those definitions state what the script relies on:
  - the grid's shape and one cell per particle;
  - the ids 0..n-1;
  - a near pair always falls in the scanned block;
  - no pair is visited twice;
  - equal-and-opposite pair forces;
  - the parked-mouse sentinel;
  - the wrap band.

Particles are values (`Particles.Particle`) in a sequence. A grid cell lists positions in that sequence, where the script stores references to the particle objects. Reading `particles[j]` in the model therefore sees the same, current, particle that the script reaches through its reference.

Files, one module each:

| file | module | contents |
|---|---|---|
| `settings.dfy` | `Settings` | the configuration constants |
| `geometry.dfy` | `Geometry` | clamp, floor, ceil and cell arithmetic |
| `particles.dfy` | `Particles` | the particle record, the constructor, the created population |
| `spatial_grid.dfy` | `SpatialGrid` | the rebuilt grid and its counts |
| `neighbours.dfy` | `Neighbours` | the 3×3 scan with the id filter, shared by both passes |
| `forces.dfy` | `Forces` | mouse and pair repulsion, velocity sums |
| `motion.dfy` | `Motion` | damping, jitter, the speed limit, the move and the wrap |
| `lines.dfy` | `Lines` | the line pass as a list of segments |
| `banner.dfy` | `Banner` | the stateful class |

## Model

| member | source | states |
|---|---|---|
| Banner.ParticleField.constructor | js/app.js:52-60 | the initial state: mouse parked at (-600, -600), no particles, an empty 0×0 grid, id counter 0, separation threshold 0 |
| Banner.ParticleField.InitializeGrid | js/app.js:125-140 | the grid has ceil(height/150) rows of ceil(width/150) cells, every cell empty; the id counter is reset to 0 |
| Banner.ParticleField.ResizeCanvas | js/app.js:110-122 | the banner takes the measured size and the grid is re-initialised for it |
| Banner.ParticleField.NewParticle | js/app.js:92-104 | the new particle takes the counter's value as id, the given position and the velocity, size and accent of its draws; the counter goes up by one |
| Banner.ParticleField.CreateParticles | js/app.js:249-261 | the array is emptied, the grid is rebuilt empty, and exactly 120 particles are created with ids 0..119 in array order; the counter ends at 120 |
| Banner.ParticleField.UpdateGrid | js/app.js:143-169 | every cell is cleared, then each particle index is pushed, in array order, onto the cell of its clamped, floored position when that cell is in the grid; no particle ends up in two places |
| Banner.ParticleField.RepelFromMouse | js/app.js:183-197 | the particle's velocity takes the mouse force exactly when 9 < d² < 120², where d is its distance to the mouse; otherwise nothing changes |
| Banner.ParticleField.ScanCell | js/app.js:216-238 | every entry of the cell with a larger id than the particle, closer than the threshold and farther than 0.1 pixels, gets −F while the particle gets +F, in cell order |
| Banner.ParticleField.ScanNeighbours | js/app.js:204-241 | the cell pass runs over the nine cells around the particle, row offset by row offset, skipping cells outside the grid |
| Banner.ParticleField.CalculateAllForces | js/app.js:175-244 | the result is the force pass over the partners each particle's 3×3 scan yields, particles in array order, mouse step first |
| Motion.StepParticle | js/app.js:381-408 | one particle after damping, jitter, the speed limit, the move and the four ordered wrap tests |
| Banner.ParticleField.Integrate | js/app.js:380-409 | every particle becomes its physics step, in array order |
| Banner.ParticleField.LinesInCell | js/app.js:299-323 | one line per entry of the cell with a larger id whose squared distance is below 150² and whose opacity exceeds 0.05, in cell order |
| Banner.ParticleField.LinesAround | js/app.js:284-327 | the cell lines of the nine cells around the particle that lie in the grid, row offset by row offset |
| Banner.ParticleField.CursorLine | js/app.js:329-351 | a line to the cursor only while the cursor is over the banner and the line passes the same two tests |
| Banner.ParticleField.DrawLines | js/app.js:269-352 | the segments are the line pass over the current grid, particle by particle; no segment joins a particle to itself and no pair of particles is joined twice |
| Banner.ParticleField.AnimationFrame | js/app.js:372-412 | grid rebuilt from the old positions, then the force pass over that fresh grid, the physics step, and the line pass over the same (now stale) grid |
| Banner.ParticleField.MouseMove | js/app.js:421-427 | the mouse position is the client position minus the banner's top-left corner, and the banner takes the size of the box just read; the grid is left as it was |
| Banner.ParticleField.MouseLeave | js/app.js:430-433 | the mouse is parked at (-600, -600), where it no longer counts as over the banner |
| Particles.Spawned | js/app.js:92-104 | the constructor's id and position; with draws in [0,1), a size in [1,5) and velocity components in [−0.075, 0.075); accent exactly when the accent draw is below 0.4 |
| Particles.Population | js/app.js:256-260 | one particle per set of draws, and after a counter reset particle k carries id k, so the ids are 0..n-1 in array order |
| Particles.PopulationIdsDistinct | js/app.js:93 | the created particles' ids strictly increase along the array, so they are distinct |
| Particles.PopulationShape | js/app.js:257-258 | with draws in [0,1), every created particle lies inside the banner and has a size in [1,5) |
| Geometry.CellIndex | js/app.js:156-160 | the index is never negative; a coordinate left of 0 gets index 0; a coordinate in [0, extent − 1] lies inside the 150-pixel cell of its index |
| Geometry.CellCount | js/app.js:127-128 | for a positive extent, the least number of 150-pixel cells that covers it: at least one, with (n − 1)·150 < extent ≤ n·150 |
| Geometry.LastCellUnreached | js/app.js:156-160 | the clamp stops at extent − 1, so on a 150.5-pixel axis, which has two cells, every coordinate gets index 0 and the last cell is never used |
| Geometry.CellIndexInRange | js/app.js:156-160 | on a positive extent, the clamped, floored index is below ceil(extent/150) |
| Geometry.NearCellsAdjacent | js/app.js:201-202 | coordinates less than one cell apart get cell indices that differ by at most one |
| SpatialGrid.Bucket | js/app.js:154-168 | a cell after n pushes holds only indices of the first n particles; which ones, and in what order, is BucketMembers |
| SpatialGrid.Bucketed | js/app.js:153-168 | the rebuilt grid has the requested shape and holds only indices of particles pushed so far |
| SpatialGrid.BucketedPush | js/app.js:163-167 | pushing one particle appends its index to its own cell, if that cell is in the grid, and changes nothing else |
| SpatialGrid.BucketMembers | js/app.js:154-168 | a cell holds exactly the particles whose clamped, floored position is that cell, in increasing array order |
| SpatialGrid.BucketedAtMostOnce | js/app.js:154-168 | after a rebuild no particle index appears twice anywhere in the grid |
| SpatialGrid.PlacedInOneCell | js/app.js:156-167 | on a grid sized for a positive banner, each particle's cell is in the grid, and the particle is in that cell and in no other |
| SpatialGrid.TotalIsPlaced | js/app.js:154-168 | the number of entries equals the number of particles whose cell passes the in-bounds guard |
| SpatialGrid.AllPlaced | js/app.js:163 | on a grid sized for a positive banner the guard always passes, so the total number of entries equals the number of particles |
| SpatialGrid.NothingPlacedInEmptyGrid | js/app.js:163 | a grid with no rows or no columns receives no entries |
| Neighbours.Candidates | js/app.js:205-218 | every partner the 3×3 scan yields for particle i is a particle with a larger id |
| Neighbours.Scans | js/app.js:179-218 | one scan per particle; every scanned partner is another particle, with a larger id |
| Neighbours.CellCandidatesMembers | js/app.js:216-218 | the entries a cell yields are exactly its entries with a larger id, and none repeats when the cell repeats none |
| Neighbours.BlockCandidatesSound | js/app.js:205-213 | every candidate comes from one of the scanned cells that lies in the grid |
| Neighbours.BlockCandidatesComplete | js/app.js:205-218 | every entry with a larger id in a scanned in-grid cell is a candidate |
| Neighbours.CandidatesDistinct | js/app.js:205-218 | when no particle sits twice in the grid, the scan lists no partner twice |
| Neighbours.NearPairIsCandidate | js/app.js:201-218 | on a freshly rebuilt grid, every particle closer than 150 pixels and with a larger id is found by the 3×3 scan |
| Neighbours.NearPairScanned | js/app.js:374-377 | the same holds for the scans of the force pass, which runs right after the rebuild |
| Neighbours.ScansDistinct | js/app.js:205-218 | no particle's scan lists a partner twice |
| Neighbours.ScanPairsOnce | js/app.js:218 | in the (particle, partner) list the scans define, no particle is paired with itself and no unordered pair appears twice |
| Forces.MouseStep | js/app.js:183-197 | only particle i can change, and only its velocity: it gains the mouse force for its offset when 9 < d² < 120², and nothing changes otherwise |
| Forces.PairStep | js/app.js:220-237 | only the velocities of particles i and j can change; for two different particles the changes are equal and opposite, i's change is the force for its offset from j when the pair repels, and nothing changes when it does not |
| Forces.ForcePass | js/app.js:179-243 | the pass keeps the number of particles; what it keeps and changes is stated by ForcePassBodies, ForcePassVelocitySum and ForcePassMouseOnly |
| Forces.CellPassIsPairFold | js/app.js:216-238 | the cell loop is the pair step over the cell's candidates |
| Forces.BlockPassIsPairFold | js/app.js:205-241 | the block loop is the pair step over the block's candidates |
| Forces.ForcePassBodies | js/app.js:179-243 | the force pass changes velocities only: ids, positions, sizes and accents stay put |
| Forces.ExchangeKeepsSum | js/app.js:234-237 | an equal-and-opposite exchange between two different particles leaves the sum of all velocities unchanged |
| Forces.PairFoldKeepsSum | js/app.js:216-238 | pair repulsion over any list of partners other than the particle itself leaves the velocity sum unchanged |
| Forces.ForcePassVelocitySum | js/app.js:175-244 | the whole force pass changes the velocity sum by exactly the sum of the mouse forces |
| Forces.PairFoldInert | js/app.js:43-44 | with a threshold no larger than 0.01, which includes the configured 0, no pair qualifies and pair repulsion changes nothing |
| Forces.ForcePassMouseOnly | js/app.js:225 | with such a threshold each particle's velocity changes by its own mouse force and nothing else |
| Forces.OutOfReach | js/app.js:183-188 | the mouse pushes no particle lying at least the interaction radius to its right or below it |
| Forces.ForcePassAtRest | js/app.js:188 | with the configured threshold and the mouse parked, a force pass over particles right of x = −480 changes nothing |
| Motion.Stepped | js/app.js:382-408 | the step keeps the particle's id, size and accent, and on a banner of non-negative size leaves it inside the band of twice its size around the banner |
| Motion.Moved | js/app.js:380-409 | the physics step keeps the number of particles and each particle's id, size and accent |
| Motion.Wrapped | js/app.js:404-408 | the wrapped coordinate lies in [−buffer, extent+buffer]; a coordinate already there is unchanged; one below jumps to extent+buffer and stays there |
| Motion.WrapIdempotent | js/app.js:405-408 | wrapping a wrapped coordinate again changes nothing |
| Motion.LimitedSpeed | js/app.js:390-396 | after the speed limit the squared speed is at most 0.75² |
| Motion.LimitedKeepsSlow | js/app.js:392 | a velocity within the limit passes unchanged |
| Motion.SteppedInBand | js/app.js:380-409 | after the step the particle lies in the band of twice its size around the banner and moves no faster than 0.75 |
| Motion.MovedInBand | js/app.js:380-409 | the same for every particle of the array |
| Motion.SteppedMovesByVelocity | js/app.js:399-408 | on each axis, a particle whose moved coordinate stays inside the band of twice its size is displaced along that axis by exactly its new velocity |
| Lines.CursorLinks | js/app.js:329-351 | at most one line, from particle i to the cursor, and only while the cursor is over the banner; when the cursor is over the banner and the line passes the distance and opacity tests, that line is drawn at its opacity |
| Lines.ParticleLinks | js/app.js:284-351 | every line stroked for particle i starts at i and goes to one of its scanned partners or to the cursor; the pass joins these blocks in particle order |
| Lines.CellLinksArePairLinks | js/app.js:299-323 | the cell loop strokes the lines to the cell's candidates |
| Lines.BlockLinksArePairLinks | js/app.js:284-327 | the block loop strokes the lines to the block's candidates |
| Lines.FrameLinksStep | js/app.js:280-352 | one more particle of the pass appends its block lines and then its cursor line |
| Lines.FrameLinksPlaced | js/app.js:299-351 | every segment joins a particle to a scanned partner, or to the cursor while the cursor is over the banner |
| Lines.FrameLinksLit | js/app.js:308-349 | every segment passes the distance and opacity tests and is drawn at its opacity |
| Lines.FrameLinksComplete | js/app.js:299-323 | the pass holds the line from i to j exactly when j is one of i's scanned partners and the line passes both tests |
| Lines.FreshGridLinks | js/app.js:284-323 | over a grid rebuilt from the same positions, the line between two particles is stroked, from the smaller id, exactly when it passes both tests |
| Lines.NoSelfLinks | js/app.js:301 | no segment joins a particle to itself |
| Lines.LinkedOnce | js/app.js:301 | no two segments join the same pair of particles, in either direction |
| Lines.SentinelInactive | js/app.js:278 | the parked mouse does not count as over the banner |
| Lines.ParkedMouseDrawsNoCursorLines | js/app.js:329-330 | while the mouse is parked the pass strokes no cursor line |

## Left out

- Rendering: canvas sizing, `clearRect`, stroke styles, `globalAlpha`, the particle circles and the mobile hide check. The line pass returns its segments, each with its opacity, instead of stroking them.
- Theme handling: CSS custom properties, `localStorage` and icon swapping.
- Event wiring, the debounced resize with `setTimeout`, and `requestAnimationFrame` scheduling. `AnimationFrame` is one frame. `CreateParticles` stands for the restart after a resize.
- `getBoundingClientRect`: the banner's size and its top-left corner are method parameters.
- `Math.random`:
  - The draws are caller-supplied values: six per new particle (`Particles.Spawn`) and two per particle per frame (`Motion.Jitter`).
  - Facts about ranges assume draws in [0,1).
- Floating point: arithmetic is on unbounded reals, so rounding is not modelled.
- `Math.sqrt` and `Math.pow` are caller-supplied functions:
  - `sqrt` is used in the speed limit. The speed lemmas assume it returns the non-negative root.
  - `fade` stands for `(√d / 150)^1.5` in the opacity.
  - `mouseForce` and `pairForce` stand for the force vectors. The pair force's own formula divides by `minSeparationDistance`, which is 0; that formula is never reached with the configured threshold.
- The defensive `!grid[r]` and `!grid[row][col]` checks. A grid of the right shape is an invariant of the class (`Valid`), so those branches cannot be taken.
- `Banner.ParticleField.DrawLines`: neighbour completeness is not claimed for the line pass of a frame. That pass reads the grid built before the particles moved and possibly wrapped, so a pair that came within range this frame can be missed. Completeness is proved only over a freshly rebuilt grid (`Lines.FreshGridLinks`).
- `Banner.ParticleField.CreateParticles`: while particles are appended, the grid stays empty; `Valid` holds before and after.
- The inner loop bodies of `calculateAllForces`, `drawCanvas` and the physics loop are written as separate methods (`RepelFromMouse`, `ScanCell`, `ScanNeighbours`, `LinesInCell`, `LinesAround`, `CursorLine`, `StepParticle`). They run in the same order on the same state as the inline code.
- `Banner.ParticleField.MouseMove`: like `handleMouseMove`, it takes the banner's size from the box it reads but does not rebuild the grid. Until the debounced resize runs, the grid can be sized for the old banner. `Valid` does not tie the grid's shape to the banner's size, so the placement and completeness lemmas (`SpatialGrid.AllPlaced`, `SpatialGrid.PlacedInOneCell`, `Neighbours.NearPairIsCandidate`, `Neighbours.NearPairScanned`, `Lines.FreshGridLinks`) are stated for a grid of `CellCount` rows and columns only.
- The cell index clamps a coordinate to `extent − 1` before dividing by the cell size, as the script does. When `extent − 1` falls in the second-to-last cell (an extent less than one pixel above a multiple of 150), the last column or row of the grid is never used. The model keeps this behaviour (`Geometry.LastCellUnreached`); "clamped to the last cell" holds only where `extent − 1` reaches it.
- `console.log` output.
