/** Particle records and the per-particle facts shared by the grid, force and line code. */
module Particles {
  import opened Settings
  import opened Geometry

  /** One particle. The id is assigned from a counter at construction; size and
      accent are fixed then; position and velocity change every frame. */
  datatype Particle = Particle(id: int, x: real, y: real, vx: real, vy: real, size: real, isAccent: bool)

  /** A value Math.random can return. */
  predicate IsDraw(r: real) { 0.0 <= r < 1.0 }

  /** The six random draws spent on one new particle, in the order they are made:
      position x and y, then velocity x and y, size and accent. */
  datatype Spawn = Spawn(rx: real, ry: real, rvx: real, rvy: real, rsize: real, raccent: real)

  predicate IsSpawn(s: Spawn) {
    IsDraw(s.rx) && IsDraw(s.ry) && IsDraw(s.rvx) && IsDraw(s.rvy) && IsDraw(s.rsize) && IsDraw(s.raccent)
  }

  /** A draw scaled to an extent of the banner: Math.random() * bannerRect.width. */
  function Scaled(r: real, extent: real): real { r * extent }

  /** The particle the constructor builds with counter value id at (x, y) from draws s:
      each velocity component is (r - 0.5) * BaseSpeed, the size is spread over
      [MinParticleSize, MaxParticleSize), and the particle is an accent one when its draw
      falls below AccentProbability. */
  function Spawned(id: int, x: real, y: real, s: Spawn): (p: Particle)
    ensures p.id == id && p.x == x && p.y == y
    ensures IsSpawn(s) ==> MinParticleSize <= p.size < MaxParticleSize
    ensures IsSpawn(s) ==> -BaseSpeed / 2.0 <= p.vx < BaseSpeed / 2.0 && -BaseSpeed / 2.0 <= p.vy < BaseSpeed / 2.0
    ensures p.isAccent <==> s.raccent < AccentProbability
  {
    Particle(id, x, y, (s.rvx - 0.5) * BaseSpeed, (s.rvy - 0.5) * BaseSpeed,
             s.rsize * (MaxParticleSize - MinParticleSize) + MinParticleSize,
             s.raccent < AccentProbability)
  }

  /** The particles created for a banner of the given size right after the id counter
      was reset: particle k gets id k and the position draws scaled to the banner. */
  function Population(spawns: seq<Spawn>, width: real, height: real): (ps: seq<Particle>)
    ensures |ps| == |spawns|
    ensures forall k :: 0 <= k < |ps| ==> ps[k].id == k
  {
    if spawns == [] then []
    else
      var k := |spawns| - 1;
      Population(spawns[..k], width, height) + [Spawned(k, Scaled(spawns[k].rx, width), Scaled(spawns[k].ry, height), spawns[k])]
  }

  /** Creating one more particle appends the one built from the next draw, numbered by
      the count so far. */
  lemma PopulationSnoc(spawns: seq<Spawn>, width: real, height: real, k: nat)
    requires k < |spawns|
    ensures Population(spawns[..k + 1], width, height) ==
      Population(spawns[..k], width, height) + [Spawned(k, Scaled(spawns[k].rx, width), Scaled(spawns[k].ry, height), spawns[k])]
  {
    var t := spawns[..k + 1];
    assert t[..k] == spawns[..k];
    var q := Spawned(k, Scaled(spawns[k].rx, width), Scaled(spawns[k].ry, height), spawns[k]);
    var whole, pre := Population(t, width, height), Population(spawns[..k], width, height);
    PopulationAt(t, width, height, k);
    assert whole[k] == q;
    assert whole[..k] == pre;
    assert whole == pre + [q];
  }

  /** Particle k of the population is the one built from draw k with id k. */
  lemma {:induction false} PopulationAt(spawns: seq<Spawn>, width: real, height: real, k: nat)
    requires k < |spawns|
    ensures Population(spawns, width, height)[k] == Spawned(k, Scaled(spawns[k].rx, width), Scaled(spawns[k].ry, height), spawns[k])
  {
    var n := |spawns| - 1;
    if k < n {
      PopulationAt(spawns[..n], width, height, k);
    }
  }

  /** A draw scaled to a positive extent lands inside [0, extent). */
  lemma ScaledDraw(r: real, extent: real)
    requires IsDraw(r) && 0.0 < extent
    ensures 0.0 <= Scaled(r, extent) < extent
  {
    assert 0.0 <= r * extent;
    assert r * extent < 1.0 * extent;
  }

  /** The created particles lie inside a banner of positive size and have sizes in
      [MinParticleSize, MaxParticleSize). */
  lemma PopulationShape(spawns: seq<Spawn>, width: real, height: real)
    requires 0.0 < width && 0.0 < height
    requires forall k :: 0 <= k < |spawns| ==> IsSpawn(spawns[k])
    ensures forall k :: 0 <= k < |spawns| ==>
      0.0 <= Population(spawns, width, height)[k].x < width && 0.0 <= Population(spawns, width, height)[k].y < height
    ensures forall k :: 0 <= k < |spawns| ==>
      MinParticleSize <= Population(spawns, width, height)[k].size < MaxParticleSize
  {
    var ps := Population(spawns, width, height);
    forall k | 0 <= k < |spawns|
      ensures 0.0 <= ps[k].x < width && 0.0 <= ps[k].y < height
      ensures MinParticleSize <= ps[k].size < MaxParticleSize
    {
      PopulationAt(spawns, width, height, k);
      ScaledDraw(spawns[k].rx, width);
      ScaledDraw(spawns[k].ry, height);
    }
  }

  /** With ids equal to array positions, ids are pairwise different. */
  lemma PopulationIdsDistinct(spawns: seq<Spawn>, width: real, height: real)
    ensures forall a, b :: 0 <= a < b < |spawns| ==>
      Population(spawns, width, height)[a].id < Population(spawns, width, height)[b].id
  {
    var ps := Population(spawns, width, height);
    forall a, b | 0 <= a < b < |spawns| ensures ps[a].id < ps[b].id {
      PopulationAt(spawns, width, height, a);
      PopulationAt(spawns, width, height, b);
    }
  }

  /** The ids of a population, in array order. */
  function Ids(ps: seq<Particle>): (ids: seq<int>)
    ensures |ids| == |ps|
    ensures forall k :: 0 <= k < |ps| ==> ids[k] == ps[k].id
  {
    seq(|ps|, k requires 0 <= k < |ps| => ps[k].id)
  }

  /** The (row, column) of the grid cell a particle is bucketed into, for a banner of
      the given width and height. */
  function CellOf(p: Particle, width: real, height: real): (int, int)
  {
    (CellIndex(p.y, height), CellIndex(p.x, width))
  }

  /** a and b hold the same particles at the same places: only velocities may differ. */
  predicate SameBodies(a: seq<Particle>, b: seq<Particle>) {
    |a| == |b| &&
    forall k :: 0 <= k < |a| ==>
      a[k].id == b[k].id && a[k].x == b[k].x && a[k].y == b[k].y && a[k].size == b[k].size && a[k].isAccent == b[k].isAccent
  }

  /** Particle k of two such populations agrees on everything but its velocity. */
  lemma SameBodiesAt(a: seq<Particle>, b: seq<Particle>, k: nat)
    requires SameBodies(a, b) && k < |a|
    ensures |a| == |b|
    ensures a[k].id == b[k].id && a[k].x == b[k].x && a[k].y == b[k].y
    ensures a[k].size == b[k].size && a[k].isAccent == b[k].isAccent
  {
  }

  /** Populations that agree on everything but velocities have the same ids. */
  lemma SameBodiesIds(a: seq<Particle>, b: seq<Particle>)
    requires SameBodies(a, b)
    ensures Ids(a) == Ids(b)
  {
    forall k | 0 <= k < |a| ensures Ids(a)[k] == Ids(b)[k] {
      SameBodiesAt(a, b, k);
    }
  }

  /** Adds the velocity delta f to a particle. */
  function Push(p: Particle, f: (real, real)): Particle {
    p.(vx := p.vx + f.0, vy := p.vy + f.1)
  }
}
