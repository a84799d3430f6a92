/** The physics of single bodies and pairs of bodies: the mass formula of a
    `GravityBody`, the inelastic merge of two bodies (`merge_bodies`), the
    pairwise gravitational pull (`calculate_gravity`) and the integrator
    (`GravityBody.update`). Each operation is a function on the state of a
    body; the classes in module `Gravity` apply them to their fields. */
module Bodies {
  import opened RealArith
  import opened Vectors

  /** Newton's constant of gravitation, 6.6739e-11. */
  const GRAVITY: real := 0.000000000066739

  /** `GravityBody.density`. */
  const DENSITY: real := 500000.0

  /** `math.pi`, to the digits a double holds. */
  const PI: real := 3.141592653589793

  /** The mass a body of the given radius is created with: a disc of uniform
      density. */
  function MassOf(radius: real): real {
    PI * (radius * radius) * DENSITY
  }

  /** A body of non-zero radius has positive mass. */
  lemma MassPositive(radius: real)
    requires radius != 0.0
    ensures 0.0 < MassOf(radius)
  {
    var rr := radius * radius;
    SquareSign(radius, rr);
    var prr := PI * rr;
    PositiveProduct(PI, rr, prr);
    var m := prr * DENSITY;
    PositiveProduct(prr, DENSITY, m);
  }

  /** Mass is additive in the squared radius: a body whose squared radius is
      the sum of two others' has the sum of their masses. */
  lemma MassAdditive(ra: real, rb: real, r: real)
    requires r * r == ra * ra + rb * rb
    ensures MassOf(r) == MassOf(ra) + MassOf(rb)
  {
  }

  /** What the physics reads and writes of a `GravityBody`. */
  datatype BodyState = BodyState(position: Vector2, velocity: Vector2, force: Vector2, radius: real, mass: real)

  /** The invariant every body of a simulation keeps: a positive radius and
      the mass the radius determines (positive as a consequence; stated so
      it can be used directly). */
  predicate WellFormed(s: BodyState) {
    0.0 < s.radius && 0.0 < s.mass && s.mass == MassOf(s.radius)
  }

  function Momentum(s: BodyState): Vector2 {
    Scale(s.velocity, s.mass)
  }

  /** The mass-weighted position, whose sum over a system divided by its mass
      is the centre of mass. */
  function Moment(s: BodyState): Vector2 {
    Scale(s.position, s.mass)
  }

  /** The accumulated force. */
  function Force(s: BodyState): Vector2 {
    s.force
  }

  /** Whether two bodies touch or overlap, the test by which `step` chooses
      between merging them and letting them attract each other. */
  predicate Collides(root: real -> real, a: BodyState, b: BodyState)
    requires IsSqrt(root)
  {
    Distance(root, a.position, b.position) <= a.radius + b.radius
  }

  /** `merge_bodies`: `b` is absorbed into `a`. The result carries the summed
      mass and momentum, sits at the centre of mass of the two, has a squared
      radius that is the sum of the squared radii, and keeps the force
      accumulated on `a`. The source divides by the summed mass, so a caller
      must not merge two bodies whose masses cancel. */
  function Merged(root: real -> real, a: BodyState, b: BodyState): (r: BodyState)
    requires IsSqrt(root) && a.mass + b.mass != 0.0
    ensures r.mass == a.mass + b.mass
    ensures Momentum(r) == Add(Momentum(a), Momentum(b))
    ensures Moment(r) == Add(Moment(a), Moment(b))
    ensures 0.0 <= r.radius && r.radius * r.radius == a.radius * a.radius + b.radius * b.radius
    ensures r.force == a.force
  {
    var mass := a.mass + b.mass;
    var momentum := Add(Scale(a.velocity, a.mass), Scale(b.velocity, b.mass));
    var velocity := Div(momentum, mass).value;
    var position := Div(Add(Scale(a.position, a.mass), Scale(b.position, b.mass)), mass).value;
    var radius := MergedRadius(root, a.radius, b.radius);
    BodyState(position, velocity, a.force, radius, mass)
  }

  /** The radius of a merged body: the square root of the summed squared
      radii, so the merged disc has the summed area. */
  function MergedRadius(root: real -> real, ra: real, rb: real): (r: real)
    requires IsSqrt(root)
    ensures 0.0 <= r && r * r == ra * ra + rb * rb
  {
    var ra2, rb2 := ra * ra, rb * rb;
    SquareSign(ra, ra2);
    SquareSign(rb, rb2);
    root(ra2 + rb2)
  }

  /** Merging keeps the mass formula: two well-formed bodies merge into a
      well-formed body. */
  lemma MergeKeepsWellFormed(root: real -> real, a: BodyState, b: BodyState)
    requires IsSqrt(root) && WellFormed(a) && WellFormed(b)
    ensures WellFormed(Merged(root, a, b))
  {
    var r := Merged(root, a, b);
    var ra2, rb2, rr := a.radius * a.radius, b.radius * b.radius, r.radius * r.radius;
    SquareSign(a.radius, ra2);
    SquareSign(b.radius, rb2);
    SquareSign(r.radius, rr);
    MassAdditive(a.radius, b.radius, r.radius);
  }

  /** `calculate_gravity`: each body is pulled towards the other. It fails,
      as the source's `normalize` raises ZeroDivisionError, exactly when the
      two positions coincide. Otherwise only the two forces change, and they
      change by opposite amounts, so their sum is kept. */
  function Attract(root: real -> real, a: BodyState, b: BodyState): (r: Result<(BodyState, BodyState)>)
    requires IsSqrt(root)
    ensures r.Ok? <==> a.position != b.position
    ensures r.Ok? ==> r.value.0 == a.(force := r.value.0.force) && r.value.1 == b.(force := r.value.1.force)
    ensures r.Ok? ==> Add(r.value.0.force, r.value.1.force) == Add(a.force, b.force)
  {
    var diff := Sub(b.position, a.position);
    var distance := Length(root, diff);
    var direction := Normalize(root, diff);
    if direction.DivisionByZero? then
      DivisionByZero
    else
      var power := Strength(a.mass, b.mass, distance);
      var u := direction.value;
      MulNeg(u.x, power);
      MulNeg(u.y, power);
      Ok((a.(force := Add(a.force, Scale(u, power))), b.(force := Add(b.force, Scale(u, -power)))))
  }

  /** The magnitude of the pull between two masses at the given distance. */
  function Strength(ma: real, mb: real, distance: real): real
    requires distance != 0.0
  {
    SquareSign(distance, distance * distance);
    GRAVITY * ma * mb / (distance * distance)
  }

  /** The inverse-square law: the pull `calculate_gravity` adds to the first
      body points from it towards the second (it is a non-negative multiple of
      the unit vector from `a` to `b`), its magnitude times the squared
      distance is `GRAVITY * m_a * m_b`, and the second body receives the
      opposite pull. */
  lemma InverseSquareLaw(root: real -> real, a: BodyState, b: BodyState)
    requires IsSqrt(root) && a.position != b.position && 0.0 <= a.mass && 0.0 <= b.mass
    ensures Attract(root, a, b).Ok?
    ensures var r := Attract(root, a, b).value;
            var pull := Sub(r.0.force, a.force);
            var d := Distance(root, b.position, a.position);
            var toward := Normalize(root, Sub(b.position, a.position)).value;
            && pull == Scale(toward, Length(root, pull))
            && Length(root, pull) * (d * d) == GRAVITY * a.mass * b.mass
            && Add(Sub(r.1.force, b.force), pull) == Zero
  {
    var diff := Sub(b.position, a.position);
    var d := Length(root, diff);
    var u := Normalize(root, diff).value;
    var power := Strength(a.mass, b.mass, d);
    var r := Attract(root, a, b).value;
    assert r.0.force == Add(a.force, Scale(u, power)) && r.1.force == Add(b.force, Scale(u, -power));
    var pull := Sub(r.0.force, a.force);
    assert pull == Scale(u, power);
    StrengthLaw(a.mass, b.mass, d);
    LengthScale(root, u, power);
    OppositePulls(b.force, u, power);
  }

  /** The magnitude of the pull is non-negative for non-negative masses, and
      times the squared distance it is `GRAVITY * ma * mb`. */
  lemma StrengthLaw(ma: real, mb: real, d: real)
    requires 0.0 <= ma && 0.0 <= mb && d != 0.0
    ensures 0.0 <= Strength(ma, mb, d)
    ensures Strength(ma, mb, d) * (d * d) == GRAVITY * ma * mb
  {
    var dd, gm := d * d, GRAVITY * ma;
    var gmm := gm * mb;
    SquareSign(d, dd);
    NonNegativeProduct(GRAVITY, ma, gm);
    NonNegativeProduct(gm, mb, gmm);
    NonNegativeQuotient(gmm, dd);
    DivMul(gmm, dd);
  }

  /** Equal and opposite pulls along the same direction cancel. */
  lemma OppositePulls(f: Vector2, u: Vector2, p: real)
    ensures Add(Sub(Add(f, Scale(u, -p)), f), Scale(u, p)) == Zero
  {
    MulNeg(u.x, p);
    MulNeg(u.y, p);
  }

  /** In `step` two bodies that do not collide are never at the same place,
      so `calculate_gravity` never divides by zero there. */
  lemma SeparatedBodiesAttract(root: real -> real, a: BodyState, b: BodyState)
    requires IsSqrt(root) && WellFormed(a) && WellFormed(b) && !Collides(root, a, b)
    ensures Attract(root, a, b).Ok?
  {
  }

  /** `GravityBody.update`: the velocity changes by the acceleration
      `force / mass` times `dt`, then the position moves by the new velocity
      times `dt` (semi-implicit Euler), and the force is reset. The source
      divides by the mass, so a caller must not update a massless body. */
  function Integrated(s: BodyState, dt: real): (r: BodyState)
    requires s.mass != 0.0
    ensures r.force == Zero && r.mass == s.mass && r.radius == s.radius
    ensures Sub(r.position, s.position) == Scale(r.velocity, dt)
  {
    var acceleration := Div(s.force, s.mass).value;
    var velocity := Add(s.velocity, Scale(acceleration, dt));
    var position := Add(s.position, Scale(velocity, dt));
    BodyState(position, velocity, Zero, s.radius, s.mass)
  }

  /** Newton's second law over one update: the momentum grows by the impulse
      `force * dt`. */
  lemma Impulse(s: BodyState, dt: real)
    requires s.mass != 0.0
    ensures Momentum(Integrated(s, dt)) == Add(Momentum(s), Scale(s.force, dt))
  {
    var r := Integrated(s, dt);
    var acceleration := Div(s.force, s.mass).value;
    ImpulseComponent(s.velocity.x, acceleration.x, s.force.x, s.mass, dt, r.velocity.x);
    ImpulseComponent(s.velocity.y, acceleration.y, s.force.y, s.mass, dt, r.velocity.y);
  }

  lemma ImpulseComponent(v: real, a: real, f: real, m: real, dt: real, w: real)
    requires a * m == f && w == v + a * dt
    ensures w * m == v * m + f * dt
  {
    var adt, vm, wm := a * dt, v * m, w * m;
    var adtm, am := adt * m, a * m;
    var amdt := am * dt;
    Distribute(v, adt, w, m, vm, adtm, wm);
    Regroup(a, dt, m, adt, adtm, am, amdt);
  }

  /** A body at rest with no force on it stays where it is, whatever `dt`. */
  lemma RestingBodyStaysPut(s: BodyState, dt: real)
    requires s.mass != 0.0 && s.force == Zero && s.velocity == Zero
    ensures Integrated(s, dt).position == s.position && Integrated(s, dt).velocity == Zero
  {
    var acceleration := Div(s.force, s.mass).value;
    assert acceleration == Zero;
    ZeroFactor(acceleration.x, dt, acceleration.x * dt);
    ZeroFactor(acceleration.y, dt, acceleration.y * dt);
    ZeroFactor(0.0, dt, 0.0 * dt);
  }
}
