/** The per-particle physics step of a frame: damping, jitter, the speed limit, the move and
    the wrap-around at the banner's edges. Square roots are a caller-supplied function. */
module Motion {
  import opened Settings
  import opened Geometry
  import opened Particles

  /** The two jitter draws of one particle in one frame, for x and then y. */
  datatype Jitter = Jitter(rx: real, ry: real)

  /** sqrt returns the non-negative square root of every non-negative real. */
  ghost predicate IsSqrt(sqrt: real -> real) {
    forall t :: 0.0 <= t ==> 0.0 <= sqrt(t) && Square(sqrt(t)) == t
  }

  function Square(x: real): real { x * x }

  /** Multiplication as a function: lemma contracts written with Mul let the solver match
      products as terms instead of re-normalising them. */
  function Mul(a: real, b: real): real { a * b }

  /** The wrap of one coordinate: below -buffer it jumps to extent + buffer; then, above
      extent + buffer, it jumps to -buffer. The second test runs on the result of the first. */
  function Wrapped(c: real, extent: real, buffer: real): (w: real)
    ensures 0.0 <= extent && 0.0 <= buffer ==> -buffer <= w <= extent + buffer
    ensures -buffer <= c <= extent + buffer ==> w == c
    ensures c < -buffer ==> w == extent + buffer
    ensures -buffer <= c && extent + buffer < c ==> w == -buffer
  {
    var afterLow := if c < -buffer then extent + buffer else c;
    if afterLow > extent + buffer then -buffer else afterLow
  }

  /** Velocity after damping and the jitter draws. */
  function Jittered(vx: real, vy: real, jitter: Jitter): (real, real) {
    (vx * Damping + (jitter.rx - 0.5) * JitterMagnitudeX,
     vy * Damping + (jitter.ry - 0.5) * JitterMagnitudeY)
  }

  /** The speed limit: a velocity faster than MaxSpeed is scaled back to MaxSpeed, keeping
      its direction. */
  function Limited(vx: real, vy: real, sqrt: real -> real): (real, real) {
    var speed := sqrt(DistSq(vx, vy));
    if speed > MaxSpeed then (vx / speed * MaxSpeed, vy / speed * MaxSpeed) else (vx, vy)
  }

  /** One particle after the physics step of a frame on a banner of the given size. */
  function Stepped(p: Particle, jitter: Jitter, width: real, height: real, sqrt: real -> real): (q: Particle)
    ensures q.id == p.id && q.size == p.size && q.isAccent == p.isAccent
    ensures 0.0 <= width && 0.0 <= p.size ==> -(p.size * 2.0) <= q.x <= width + p.size * 2.0
    ensures 0.0 <= height && 0.0 <= p.size ==> -(p.size * 2.0) <= q.y <= height + p.size * 2.0
  {
    var v := Jittered(p.vx, p.vy, jitter);
    var lv := Limited(v.0, v.1, sqrt);
    var buffer := p.size * 2.0;
    p.(vx := lv.0, vy := lv.1,
       x := Wrapped(p.x + lv.0, width, buffer),
       y := Wrapped(p.y + lv.1, height, buffer))
  }

  /** All particles after the physics step. */
  function Moved(ps: seq<Particle>, jitters: seq<Jitter>, width: real, height: real, sqrt: real -> real): (r: seq<Particle>)
    requires |jitters| == |ps|
    ensures |r| == |ps|
    ensures forall k :: 0 <= k < |ps| ==> r[k].id == ps[k].id && r[k].size == ps[k].size && r[k].isAccent == ps[k].isAccent
  {
    seq(|ps|, k requires 0 <= k < |ps| => Stepped(ps[k], jitters[k], width, height, sqrt))
  }

  /** The physics step of one particle as the frame loop performs it: damping, jitter,
      the speed limit, the move, then the four wrap tests in order. */
  method StepParticle(particle: Particle, jitter: Jitter, width: real, height: real, sqrt: real -> real) returns (q: Particle)
    ensures q == Stepped(particle, jitter, width, height, sqrt)
  {
    var vx := particle.vx * Damping;
    var vy := particle.vy * Damping;
    vx := vx + (jitter.rx - 0.5) * JitterMagnitudeX;
    vy := vy + (jitter.ry - 0.5) * JitterMagnitudeY;
    var speed := sqrt(DistSq(vx, vy));
    if speed > MaxSpeed {
      vx := vx / speed * MaxSpeed;
      vy := vy / speed * MaxSpeed;
    }
    var x := particle.x + vx;
    var y := particle.y + vy;
    var buffer := particle.size * 2.0;
    if x < -buffer { x := width + buffer; }
    if x > width + buffer { x := -buffer; }
    if y < -buffer { y := height + buffer; }
    if y > height + buffer { y := -buffer; }
    q := particle.(vx := vx, vy := vy, x := x, y := y);
  }

  /** A coordinate inside the band is left alone by a second wrap. */
  lemma WrapIdempotent(c: real, extent: real, buffer: real)
    requires 0.0 <= extent && 0.0 <= buffer
    ensures Wrapped(Wrapped(c, extent, buffer), extent, buffer) == Wrapped(c, extent, buffer)
  {
  }

  lemma SquareLe(a: real, b: real)
    requires 0.0 <= a <= b
    ensures Square(a) <= Square(b)
  {
  }

  lemma SquareLt(a: real, b: real)
    requires 0.0 <= a < b
    ensures Square(a) < Square(b)
  {
    ScaleLe(a, a, b);
    ScaleLt(b, a, b);
  }

  lemma ScaleLe(k: real, a: real, b: real)
    requires 0.0 <= k && a <= b
    ensures Mul(k, a) <= Mul(k, b)
  {
  }

  lemma ScaleLt(k: real, a: real, b: real)
    requires 0.0 < k && a < b
    ensures Mul(a, k) < Mul(b, k)
  {
  }

  lemma SquareNonNegative(a: real)
    ensures 0.0 <= Square(a)
  {
    if a < 0.0 {
      assert a * a == (-a) * (-a);
    }
  }

  lemma SquarePositive(s: real)
    requires 0.0 < s
    ensures 0.0 < Square(s)
  {
    ProductPositive(s, s);
  }

  lemma ProductPositive(a: real, b: real)
    requires 0.0 < a && 0.0 < b
    ensures 0.0 < Mul(a, b)
  {
  }

  lemma SquareOfProduct(x: real, y: real)
    ensures Square(x * y) == Mul(Square(x), Square(y))
  {
  }

  lemma Distribute(a: real, b: real, p: real)
    ensures Mul(a + b, p) == Mul(a, p) + Mul(b, p)
  {
  }

  lemma DivTimes(v: real, s: real)
    requires 0.0 < s
    ensures (v / s) * s == v
  {
  }

  /** x * p == p with p positive forces x == 1. */
  lemma CancelFactor(x: real, p: real)
    requires 0.0 < p && Mul(x, p) == p
    ensures x == 1.0
  {
    assert x == (x * p) / p;
  }

  lemma CancelSum(a: real, b: real, p: real)
    requires 0.0 < p && p == Mul(a, p) + Mul(b, p)
    ensures a + b == 1.0
  {
    Distribute(a, b, p);
    CancelFactor(a + b, p);
  }

  /** (u, w) scaled by s is (vx, vy), whose length is s: then (u, w) has length one. */
  lemma UnitOfScaled(u: real, w: real, s: real, vx: real, vy: real)
    requires 0.0 < s && u * s == vx && w * s == vy && Square(s) == Square(vx) + Square(vy)
    ensures Square(u) + Square(w) == 1.0
  {
    assert Square(s) == Square(u * s) + Square(w * s);
    SquareOfProduct(u, s);
    SquareOfProduct(w, s);
    SquarePositive(s);
    CancelSum(Square(u), Square(w), Square(s));
  }

  /** Dividing a velocity by its speed gives a unit vector. */
  lemma UnitDirection(vx: real, vy: real, speed: real)
    requires 0.0 < speed && Square(speed) == Square(vx) + Square(vy)
    ensures Square(vx / speed) + Square(vy / speed) == 1.0
  {
    DivTimes(vx, speed);
    DivTimes(vy, speed);
    UnitOfScaled(vx / speed, vy / speed, speed, vx, vy);
  }

  /** Scaling a velocity whose speed is speed by MaxSpeed / speed gives a velocity of speed MaxSpeed. */
  lemma ScaledSpeed(vx: real, vy: real, speed: real)
    requires 0.0 < speed && Square(speed) == Square(vx) + Square(vy)
    ensures DistSq(vx / speed * MaxSpeed, vy / speed * MaxSpeed) == Square(MaxSpeed)
  {
    UnitDirection(vx, vy, speed);
    SquareOfProduct(vx / speed, MaxSpeed);
    SquareOfProduct(vy / speed, MaxSpeed);
    Distribute(Square(vx / speed), Square(vy / speed), Square(MaxSpeed));
  }

  /** sqrt(t) is the non-negative root of t. */
  lemma RootOf(sqrt: real -> real, t: real)
    requires IsSqrt(sqrt) && 0.0 <= t
    ensures 0.0 <= sqrt(t) && Square(sqrt(t)) == t
  {
  }

  /** After the speed limit the squared speed never exceeds MaxSpeed squared. */
  lemma LimitedSpeed(vx: real, vy: real, sqrt: real -> real)
    requires IsSqrt(sqrt)
    ensures DistSq(Limited(vx, vy, sqrt).0, Limited(vx, vy, sqrt).1) <= Square(MaxSpeed)
  {
    SquareNonNegative(vx);
    SquareNonNegative(vy);
    RootOf(sqrt, DistSq(vx, vy));
    var speed := sqrt(DistSq(vx, vy));
    if speed > MaxSpeed {
      ScaledSpeed(vx, vy, speed);
    } else {
      SquareLe(speed, MaxSpeed);
    }
  }

  /** A velocity within the limit passes the speed limit unchanged. */
  lemma LimitedKeepsSlow(vx: real, vy: real, sqrt: real -> real)
    requires IsSqrt(sqrt) && DistSq(vx, vy) <= Square(MaxSpeed)
    ensures Limited(vx, vy, sqrt) == (vx, vy)
  {
    SquareNonNegative(vx);
    SquareNonNegative(vy);
    RootOf(sqrt, DistSq(vx, vy));
    var speed := sqrt(DistSq(vx, vy));
    if speed > MaxSpeed {
      SquareLt(MaxSpeed, speed);
      assert false;
    }
  }

  /** After the step every particle of non-negative size lies in the wrap band of its own
      size on a banner of non-negative size, and moves no faster than MaxSpeed. */
  lemma SteppedInBand(p: Particle, jitter: Jitter, width: real, height: real, sqrt: real -> real)
    requires 0.0 <= width && 0.0 <= height && 0.0 <= p.size && IsSqrt(sqrt)
    ensures var q := Stepped(p, jitter, width, height, sqrt);
      -p.size * 2.0 <= q.x <= width + p.size * 2.0 && -p.size * 2.0 <= q.y <= height + p.size * 2.0 &&
      DistSq(q.vx, q.vy) <= Square(MaxSpeed)
  {
    var v := Jittered(p.vx, p.vy, jitter);
    LimitedSpeed(v.0, v.1, sqrt);
  }

  /** After the physics step every particle lies in the wrap band of its size and moves no
      faster than MaxSpeed, and keeps its id, size and accent. */
  lemma MovedInBand(ps: seq<Particle>, jitters: seq<Jitter>, width: real, height: real, sqrt: real -> real)
    requires |jitters| == |ps| && 0.0 <= width && 0.0 <= height && IsSqrt(sqrt)
    requires forall k :: 0 <= k < |ps| ==> 0.0 <= ps[k].size
    ensures forall k :: 0 <= k < |ps| ==>
      var q := Moved(ps, jitters, width, height, sqrt)[k];
      -q.size * 2.0 <= q.x <= width + q.size * 2.0 && -q.size * 2.0 <= q.y <= height + q.size * 2.0 &&
      DistSq(q.vx, q.vy) <= Square(MaxSpeed)
  {
    forall k | 0 <= k < |ps|
      ensures var q := Moved(ps, jitters, width, height, sqrt)[k];
        -q.size * 2.0 <= q.x <= width + q.size * 2.0 && -q.size * 2.0 <= q.y <= height + q.size * 2.0 &&
        DistSq(q.vx, q.vy) <= Square(MaxSpeed)
    {
      SteppedInBand(ps[k], jitters[k], width, height, sqrt);
    }
  }

  /** A particle that stays inside the band is displaced by exactly its new velocity. */
  lemma SteppedMovesByVelocity(p: Particle, jitter: Jitter, width: real, height: real, sqrt: real -> real)
    ensures var q := Stepped(p, jitter, width, height, sqrt);
      -p.size * 2.0 <= p.x + q.vx <= width + p.size * 2.0 ==> q.x == p.x + q.vx
    ensures var q := Stepped(p, jitter, width, height, sqrt);
      -p.size * 2.0 <= p.y + q.vy <= height + p.size * 2.0 ==> q.y == p.y + q.vy
  {
  }
}
