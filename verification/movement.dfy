/**
 * The movement arithmetic of AAgent::Tick (Source/FlockAI/Private/Agent.cpp,
 * lines 49-59): the speed-capped displacement and the deflected second move
 * after a blocking hit. The swept move itself belongs to the engine; here
 * its hit report is an input.
 */
module Movement {
  import opened Vectors

  datatype Option<T> = None | Some(value: T)

  /**
   * FVector::GetClampedToMaxSize with exact arithmetic: a non-positive limit
   * gives zero, a vector longer than the limit is shortened to exactly the
   * limit (in the same direction, ClampKeepsDirection), any other vector is
   * returned unchanged.
   */
  function ClampToMaxSize(size: Vec -> real, v: Vec, maxSize: real): (r: Vec)
    requires IsEuclidean(size)
    ensures maxSize <= 0.0 ==> r == Zero
    ensures 0.0 <= maxSize ==> size(r) <= maxSize
    ensures size(v) <= maxSize ==> r == v
    ensures 0.0 <= maxSize < size(v) ==> size(r) == maxSize
  {
    if maxSize <= 0.0 then Zero
    else if size(v) > maxSize then
      var k := maxSize / size(v);
      assert 0.0 < k && k * size(v) == maxSize;
      Scale(v, k)
    else v
  }

  /** A positive limit never changes the direction of the clamped vector. */
  lemma ClampKeepsDirection(size: Vec -> real, v: Vec, maxSize: real)
    requires IsEuclidean(size) && 0.0 < maxSize
    ensures SafeNormal(size, ClampToMaxSize(size, v, maxSize)) == SafeNormal(size, v)
  {
    if size(v) > maxSize {
      SafeNormalScaleInvariant(size, v, maxSize / size(v));
    }
  }

  /** Clamping twice to the same limit is clamping once. */
  lemma ClampIdempotent(size: Vec -> real, v: Vec, maxSize: real)
    requires IsEuclidean(size)
    ensures ClampToMaxSize(size, ClampToMaxSize(size, v, maxSize), maxSize) == ClampToMaxSize(size, v, maxSize)
  {
  }

  /**
   * The displacement of one tick: heading times base speed times elapsed
   * time, clamped to max speed times elapsed time.
   */
  function Displacement(size: Vec -> real, heading: Vec, baseSpeed: real, maxSpeed: real, dt: real): (r: Vec)
    requires IsEuclidean(size)
    ensures 0.0 <= maxSpeed * dt ==> size(r) <= maxSpeed * dt
    ensures size(Scale(Scale(heading, baseSpeed), dt)) <= maxSpeed * dt ==> r == Scale(Scale(heading, baseSpeed), dt)
  {
    ClampToMaxSize(size, Scale(Scale(heading, baseSpeed), dt), maxSpeed * dt)
  }

  /** With a positive speed cap the move goes in the direction of the uncapped move. */
  lemma DisplacementKeepsDirection(size: Vec -> real, heading: Vec, baseSpeed: real, maxSpeed: real, dt: real)
    requires IsEuclidean(size) && 0.0 < maxSpeed * dt
    ensures SafeNormal(size, Displacement(size, heading, baseSpeed, maxSpeed, dt))
         == SafeNormal(size, Scale(Scale(heading, baseSpeed), dt))
  {
    ClampKeepsDirection(size, Scale(Scale(heading, baseSpeed), dt), maxSpeed * dt);
  }

  function Min(a: real, b: real): real {
    if a <= b then a else b
  }

  /** Below the cap the move is the uncapped one: base speed · |heading| · dt long. */
  lemma DisplacementUncapped(size: Vec -> real, heading: Vec, baseSpeed: real, maxSpeed: real, dt: real)
    requires IsEuclidean(size) && 0.0 < baseSpeed && 0.0 < dt && baseSpeed * size(heading) <= maxSpeed
    ensures Displacement(size, heading, baseSpeed, maxSpeed, dt) == Scale(Scale(heading, baseSpeed), dt)
    ensures size(Displacement(size, heading, baseSpeed, maxSpeed, dt)) == baseSpeed * size(heading) * dt
  {
    var want := baseSpeed * size(heading);
    assert size(Scale(Scale(heading, baseSpeed), dt)) == dt * want;
    MulNonneg(maxSpeed - want, dt);
    assert (maxSpeed - want) * dt == maxSpeed * dt - want * dt;
  }

  /** Above the cap the move is exactly max speed · dt long. */
  lemma DisplacementCapped(size: Vec -> real, heading: Vec, baseSpeed: real, maxSpeed: real, dt: real)
    requires IsEuclidean(size) && 0.0 < baseSpeed && 0.0 < maxSpeed && 0.0 < dt
    requires maxSpeed < baseSpeed * size(heading)
    ensures size(Displacement(size, heading, baseSpeed, maxSpeed, dt)) == maxSpeed * dt
  {
    var want := baseSpeed * size(heading);
    assert size(Scale(Scale(heading, baseSpeed), dt)) == dt * want;
    MulPos(maxSpeed, dt);
    MulPos(want - maxSpeed, dt);
    assert (want - maxSpeed) * dt == want * dt - maxSpeed * dt;
  }

  /**
   * For positive speeds and time step, the distance moved is
   * min(base speed · |heading|, max speed) · dt: the cap does not depend on
   * the base speed.
   */
  lemma DisplacementLength(size: Vec -> real, heading: Vec, baseSpeed: real, maxSpeed: real, dt: real)
    requires IsEuclidean(size) && 0.0 < baseSpeed && 0.0 < maxSpeed && 0.0 < dt
    ensures size(Displacement(size, heading, baseSpeed, maxSpeed, dt)) == Min(baseSpeed * size(heading), maxSpeed) * dt
  {
    if baseSpeed * size(heading) <= maxSpeed {
      DisplacementUncapped(size, heading, baseSpeed, maxSpeed, dt);
    } else {
      DisplacementCapped(size, heading, baseSpeed, maxSpeed, dt);
    }
  }

  /**
   * A heading of length 5 at base speed 200, max speed 300 and a one-second
   * tick would move 1000 units; the clamp cuts the move to exactly 300.
   */
  lemma SpeedCapExample(size: Vec -> real, heading: Vec)
    requires IsEuclidean(size) && size(heading) == 5.0
    ensures size(Displacement(size, heading, 200.0, 300.0, 1.0)) == 300.0
  {
    DisplacementLength(size, heading, 200.0, 300.0, 1.0);
  }

  /** FVector::VectorPlaneProject: v minus its component along the (unit) normal n. */
  function PlaneProject(v: Vec, n: Vec): Vec {
    Sub(v, Scale(n, Dot(v, n)))
  }

  lemma DotSubScale(v: Vec, n: Vec, c: real)
    ensures Dot(Sub(v, Scale(n, c)), n) == Dot(v, n) - c * Dot(n, n)
  {
  }

  lemma DotScaleLeft(v: Vec, k: real, n: Vec)
    ensures Dot(Scale(v, k), n) == k * Dot(v, n)
  {
  }

  lemma SelfDotSubScale(v: Vec, n: Vec, c: real)
    ensures Dot(Sub(v, Scale(n, c)), Sub(v, Scale(n, c))) == Dot(v, v) - 2.0 * c * Dot(v, n) + c * c * Dot(n, n)
  {
  }

  lemma SquareNonneg(c: real)
    ensures 0.0 <= c * c
  {
    if c < 0.0 {
      MulNonneg(-c, -c);
    } else {
      MulNonneg(c, c);
    }
  }

  lemma SquareMonotone(a: real, b: real)
    requires 0.0 <= a && 0.0 <= b && a * a <= b * b
    ensures a <= b
  {
    if b < a {
      assert (a - b) * (a + b) == a * a - b * b;
      MulPos(a - b, a + b);
    }
  }

  /**
   * Projecting onto the plane of a unit normal (or the degenerate zero
   * normal) leaves no component along the normal and never lengthens the
   * vector.
   */
  lemma PlaneProjectProperties(size: Vec -> real, v: Vec, n: Vec)
    requires IsEuclidean(size) && (n == Zero || size(n) == 1.0)
    ensures Dot(PlaneProject(v, n), n) == 0.0
    ensures size(PlaneProject(v, n)) <= size(v)
  {
    var c := Dot(v, n);
    var p := PlaneProject(v, n);
    DotSubScale(v, n, c);
    if n == Zero {
      assert p == v;
    } else {
      UnitDot(size, n);
      SelfDotSubScale(v, n, c);
      SquareNonneg(c);
      assert Dot(p, p) == Dot(v, v) - c * c;
      assert size(p) * size(p) <= size(v) * size(v);
      SquareMonotone(size(p), size(v));
    }
  }

  /** What the first, swept move reports: a blocking hit, its surface normal, and the fraction moved. */
  datatype HitResult = HitResult(isValidBlockingHit: bool, normal: Vec, time: real)

  /**
   * The deflected move: the displacement projected onto the plane of the
   * horizontal hit normal, times the fraction of the move not yet made.
   */
  function Deflection(size: Vec -> real, displacement: Vec, hit: HitResult): Vec
    requires IsEuclidean(size)
  {
    Scale(PlaneProject(displacement, SafeNormal2D(size, hit.normal)), 1.0 - hit.time)
  }

  /** The deflected move slides along the wall: it has no component along the horizontal normal. */
  lemma DeflectionSlidesAlongWall(size: Vec -> real, displacement: Vec, hit: HitResult)
    requires IsEuclidean(size)
    ensures Dot(Deflection(size, displacement, hit), SafeNormal2D(size, hit.normal)) == 0.0
  {
    var n := SafeNormal2D(size, hit.normal);
    var p := PlaneProject(displacement, n);
    PlaneProjectProperties(size, displacement, n);
    DotScaleLeft(p, 1.0 - hit.time, n);
  }

  /** The normal is horizontal, so the vertical part of the displacement only shrinks by 1 - time. */
  lemma DeflectionKeepsVertical(size: Vec -> real, displacement: Vec, hit: HitResult)
    requires IsEuclidean(size)
    ensures Deflection(size, displacement, hit).z == displacement.z * (1.0 - hit.time)
  {
    var n := SafeNormal2D(size, hit.normal);
    assert n.z == 0.0;
    assert PlaneProject(displacement, n).z == displacement.z;
  }

  /** The deflected move is |1 - time| times the projection long. */
  lemma DeflectionLength(size: Vec -> real, displacement: Vec, hit: HitResult)
    requires IsEuclidean(size)
    ensures size(Deflection(size, displacement, hit))
         == Abs(1.0 - hit.time) * size(PlaneProject(displacement, SafeNormal2D(size, hit.normal)))
  {
  }

  /**
   * For a hit time in [0, 1] the deflected move is never longer than the
   * part of the displacement not yet made, (1 - time) times its length.
   */
  lemma DeflectionNoLonger(size: Vec -> real, displacement: Vec, hit: HitResult)
    requires IsEuclidean(size) && 0.0 <= hit.time <= 1.0
    ensures size(Deflection(size, displacement, hit)) <= (1.0 - hit.time) * size(displacement)
  {
    var n := SafeNormal2D(size, hit.normal);
    var p := PlaneProject(displacement, n);
    var k := 1.0 - hit.time;
    PlaneProjectProperties(size, displacement, n);
    DeflectionLength(size, displacement, hit);
    assert size(Deflection(size, displacement, hit)) == k * size(p);
    MulNonneg(k, size(displacement) - size(p));
    assert k * (size(displacement) - size(p)) == k * size(displacement) - k * size(p);
  }

  /**
   * A hit whose wall is parallel to the displacement (normal orthogonal to
   * it) deflects nothing away: the second move is the unmade fraction of the
   * first.
   */
  lemma ParallelWallKeepsDirection(size: Vec -> real, displacement: Vec, hit: HitResult)
    requires IsEuclidean(size) && Dot(displacement, SafeNormal2D(size, hit.normal)) == 0.0
    ensures Deflection(size, displacement, hit) == Scale(displacement, 1.0 - hit.time)
  {
    var n := SafeNormal2D(size, hit.normal);
    assert Scale(n, 0.0) == Zero;
    assert Sub(displacement, Zero) == displacement;
  }

  /** The second move of a tick: present exactly when the first move reported a blocking hit. */
  function SecondMove(size: Vec -> real, displacement: Vec, hit: HitResult): (r: Option<Vec>)
    requires IsEuclidean(size)
    ensures r.Some? <==> hit.isValidBlockingHit
  {
    if hit.isValidBlockingHit then Some(Deflection(size, displacement, hit)) else None
  }
}
