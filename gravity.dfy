/** The simulator's two classes. A `GravityBody` is updated in place by the
    simulation, so it is a class whose fields are its state; `State()` reads
    them as a value of `Bodies.BodyState`. A `Simulation` holds the list of
    bodies and steps it; its methods are proved to do what the functions of
    modules `Bodies` and `StepSpec` describe. */
module Gravity {
  import opened Vectors
  import opened Bodies
  import opened Slots
  import opened StepSpec
  import opened StepLaws

  /** `Simulation.body_count`. */
  const BODY_COUNT: nat := 60

  class GravityBody {
    var position: Vector2
    var velocity: Vector2
    var force: Vector2
    var radius: real
    var mass: real

    function State(): BodyState
      reads this
    {
      BodyState(position, velocity, force, radius, mass)
    }

    /** `GravityBody(radius=…, position=…, velocity=…)`: the mass follows
        from the radius and the density, and no force acts yet. A body of
        positive radius is well formed. */
    constructor(radius: real, position: Vector2, velocity: Vector2)
      ensures State() == BodyState(position, velocity, Zero, radius, MassOf(radius))
      ensures 0.0 < radius ==> WellFormed(State())
    {
      this.radius := radius;
      this.position := position;
      this.velocity := velocity;
      this.mass := PI * (radius * radius) * DENSITY;
      this.force := Zero;
      new;
      if 0.0 < radius {
        MassPositive(radius);
      }
    }

    /** `update(delta_time)`: one semi-implicit Euler step, after which the
        force is reset. The source divides by the mass. */
    method Update(dt: real)
      requires mass != 0.0
      modifies this
      ensures State() == Integrated(old(State()), dt)
    {
      var acceleration := Div(force, mass).value;
      velocity := Add(velocity, Scale(acceleration, dt));
      position := Add(position, Scale(velocity, dt));
      force := Zero;
    }
  }

  /** The bodies of a list with their current states. */
  function SlotsOf(bs: seq<GravityBody>): (r: seq<Slot<GravityBody>>)
    reads bs
    ensures |r| == |bs|
    ensures forall n {:trigger r[n]} :: 0 <= n < |bs| ==> r[n] == Slot(bs[n], bs[n].State())
  {
    if bs == [] then [] else [Slot(bs[0], bs[0].State())] + SlotsOf(bs[1..])
  }

  /** The bodies of `SlotsOf(bs)` are `bs`. */
  lemma RefsSlotsOf(bs: seq<GravityBody>)
    ensures Refs(SlotsOf(bs)) == bs
  {
    RefsAt(SlotsOf(bs));
  }

  /** `SlotsOf` is determined by the bodies and their states. */
  lemma SlotsAt(bs: seq<GravityBody>, s: seq<Slot<GravityBody>>)
    requires |bs| == |s|
    requires forall n :: 0 <= n < |s| ==> s[n] == Slot(bs[n], bs[n].State())
    ensures SlotsOf(bs) == s
  {
  }

  /** Dropping a body from a list drops its slot. */
  lemma SlotsRemoveAt(bs: seq<GravityBody>, k: nat)
    requires k < |bs|
    ensures SlotsOf(RemoveAt(bs, k)) == RemoveAt(SlotsOf(bs), k)
  {
  }

  class Simulation {
    /** `math.sqrt`. */
    const root: real -> real
    var bodies: seq<GravityBody>

    /** What every method keeps: a genuine square root, every body listed
        once, and every body well formed. */
    ghost predicate Valid()
      reads this, bodies
    {
      IsSqrt(root) && Distinct(bodies) && AllWellFormed(SlotsOf(bodies))
    }

    /** `Simulation()`: `BODY_COUNT` new bodies, body `n` made from the
        `n`-th draw of radius, position and velocity. The source draws the
        radius from [1, 7]. */
    constructor(root: real -> real, draws: seq<(real, Vector2, Vector2)>)
      requires IsSqrt(root) && |draws| == BODY_COUNT
      requires forall n :: 0 <= n < |draws| ==> 1.0 <= draws[n].0 <= 7.0
      ensures Valid() && |bodies| == BODY_COUNT
      ensures forall n :: 0 <= n < |draws| ==>
                fresh(bodies[n]) && bodies[n].State() == BodyState(draws[n].1, draws[n].2, Zero, draws[n].0, MassOf(draws[n].0))
    {
      this.root := root;
      var made: seq<GravityBody> := [];
      while |made| < |draws|
        invariant |made| <= |draws| && Distinct(made)
        invariant forall n :: 0 <= n < |made| ==>
                    fresh(made[n]) && made[n].State() == BodyState(draws[n].1, draws[n].2, Zero, draws[n].0, MassOf(draws[n].0))
      {
        var n := |made|;
        var b := new GravityBody(draws[n].0, draws[n].1, draws[n].2);
        AppendDistinct(made, b);
        made := made + [b];
      }
      this.bodies := made;
      forall n | 0 <= n < |made| ensures WellFormed(made[n].State()) {
        MassPositive(draws[n].0);
      }
    }

    /** `merge_bodies(body_a, body_b)`: `body_a` takes the merged state of
        the two. The source divides by the summed mass. */
    method MergeBodies(a: GravityBody, b: GravityBody)
      requires IsSqrt(root) && a.mass + b.mass != 0.0
      modifies a
      ensures a.State() == Merged(root, old(a.State()), old(b.State()))
    {
      var mass := a.mass + b.mass;
      var momentum := Add(Scale(a.velocity, a.mass), Scale(b.velocity, b.mass));
      var velocity := Div(momentum, mass).value;
      var position := Div(Add(Scale(a.position, a.mass), Scale(b.position, b.mass)), mass).value;
      var radius := MergedRadius(root, a.radius, b.radius);
      a.position := position;
      a.radius := radius;
      a.mass := mass;
      a.velocity := velocity;
    }

    /** `calculate_gravity(body_a, body_b)`: on success both forces take
        the pull of the other body. When the positions coincide the source
        raises ZeroDivisionError before changing anything; then `ok` is
        false and nothing changed. */
    method CalculateGravity(a: GravityBody, b: GravityBody) returns (ok: bool)
      requires IsSqrt(root)
      modifies a, b
      ensures ok == (old(a.position) != old(b.position))
      ensures ok ==> (a.State(), b.State()) == Attract(root, old(a.State()), old(b.State())).value
      ensures !ok ==> a.State() == old(a.State()) && b.State() == old(b.State())
    {
      var diff := Sub(b.position, a.position);
      var distance := Length(root, diff);
      var direction := Normalize(root, diff);
      if direction.DivisionByZero? {
        return false;
      }
      var power := Strength(a.mass, b.mass, distance);
      a.force := Add(a.force, Scale(direction.value, power));
      b.force := Add(b.force, Scale(direction.value, -power));
      ok := true;
    }

    /** `step()` with the elapsed time `dt`: the interactions of every pair
        the walk reaches, then the update of every surviving body. The new
        list of bodies and their states are those `Stepped` describes; so the
        total mass of `bodies` is kept, and `bodies` loses exactly the
        absorbed bodies and keeps the others in their order. */
    method Step(dt: real)
      requires Valid()
      modifies this, set b | b in bodies
      ensures Valid()
      ensures SlotsOf(bodies) == Stepped(root, old(SlotsOf(bodies)), dt).slots
      ensures TotalMass(SlotsOf(bodies)) == old(TotalMass(SlotsOf(bodies)))
      ensures bodies == Without(old(bodies), Stepped(root, old(SlotsOf(bodies)), dt).absorbed)
    {
      ghost var s, list := SlotsOf(bodies), bodies;
      RefsSlotsOf(list);
      Interact();
      UpdateAll(dt);
      StepConservesMass(root, s, dt);
      StepAccounts(root, s, dt);
      RefsSlotsOf(bodies);
    }

    /** The interactions of `step`: the outer loop over `bodies`, with the
        working copy `body_list` of the bodies not yet visited. */
    method Interact()
      requires Valid()
      modifies this, set b | b in bodies
      ensures Valid()
      ensures forall b :: b in bodies ==> b in old(bodies)
      ensures SlotsOf(bodies) == Pairs(root, old(SlotsOf(bodies)), 0).slots
    {
      ghost var s0 := SlotsOf(bodies);
      ghost var cur := s0;
      var bodyList := bodies;
      var i := 0;
      while i < |bodies|
        invariant Valid() && i <= |bodies|
        invariant forall b :: b in bodies ==> b in old(bodies)
        invariant bodyList == bodies[i..]
        invariant cur == SlotsOf(bodies)
        invariant Pairs(root, cur, i).slots == Pairs(root, s0, 0).slots
        decreases |bodies| - i
      {
        bodyList := Round(i, bodyList);
        cur := SlotsOf(bodies);
        i := i + 1;
      }
      PairsDone(root, cur);
    }

    /** One round of the outer loop of `step`, for `body_a = bodies[i]`:
        `body_list`, which holds `body_a` and the bodies after it, loses
        `body_a`, and the inner loop runs over it. */
    method Round(i: nat, bodyList: seq<GravityBody>) returns (rest: seq<GravityBody>)
      requires Valid() && i < |bodies| && bodyList == bodies[i..]
      modifies this, set b | b in bodies
      ensures Valid() && i < |bodies| <= old(|bodies|) && rest == bodies[i + 1..]
      ensures forall b :: b in bodies ==> b in old(bodies)
      ensures SlotsOf(bodies) == Inner(root, old(SlotsOf(bodies)), i, 0).slots
      ensures Pairs(root, SlotsOf(bodies), i + 1).slots == Pairs(root, old(SlotsOf(bodies)), i).slots
    {
      PairsStep(root, SlotsOf(bodies), i);
      var a := bodies[i];
      RemoveFirstAt(bodyList, a, 0);
      rest := RemoveFirst(bodyList, a);
      rest := Meet(i, rest);
    }

    /** The last loop of `step`: `body.update(delta_time)` for every body,
        in order. */
    method UpdateAll(dt: real)
      requires Valid()
      modifies set b | b in bodies
      ensures Valid() && bodies == old(bodies)
      ensures SlotsOf(bodies) == Integrate(old(SlotsOf(bodies)), dt)
    {
      ghost var p := SlotsOf(bodies);
      var n := 0;
      while n < |bodies|
        invariant n <= |bodies| && bodies == old(bodies)
        invariant forall m :: 0 <= m < n ==> bodies[m].State() == Integrated(p[m].state, dt)
        invariant forall m :: n <= m < |p| ==> bodies[m].State() == p[m].state
      {
        forall m | 0 <= m < |bodies| && m != n ensures bodies[m] != bodies[n] {
          DistinctAt(bodies, m, n);
        }
        bodies[n].Update(dt);
        n := n + 1;
      }
      SlotsAt(bodies, Integrate(p, dt));
    }

    /** The inner loop of `step` for `body_a = bodies[i]`, over `body_list`,
        which holds the bodies after it. The returned `body_list` has lost the
        bodies absorbed on the way, as `bodies` has. */
    method Meet(i: nat, bodyList: seq<GravityBody>) returns (rest: seq<GravityBody>)
      requires Valid() && i < |bodies| && bodyList == bodies[i + 1..]
      modifies this, set b | b in bodies
      ensures Valid() && i < |bodies| && rest == bodies[i + 1..]
      ensures forall b :: b in bodies ==> b in old(bodies)
      ensures SlotsOf(bodies) == Inner(root, old(SlotsOf(bodies)), i, 0).slots
    {
      ghost var s0 := SlotsOf(bodies);
      rest := bodyList;
      var j := 0;
      while j < |rest|
        invariant Valid() && i < |bodies| && rest == bodies[i + 1..]
        invariant forall b :: b in bodies ==> b in old(bodies)
        invariant Inner(root, SlotsOf(bodies), i, j).slots == Inner(root, s0, i, 0).slots
      {
        InnerStep(root, SlotsOf(bodies), i, j);
        rest := Encounter(i, j, rest);
        j := j + 1;
      }
      InnerDone(root, SlotsOf(bodies), i, j);
    }

    /** One turn of the inner loop: `body_a = bodies[i]` meets
        `body_b = body_list[j]`. A collision merges `body_b` into `body_a`
        and removes it from both lists; otherwise the two attract. */
    method Encounter(i: nat, j: nat, bodyList: seq<GravityBody>) returns (rest: seq<GravityBody>)
      requires Valid() && i + 1 + j < |bodies| && bodyList == bodies[i + 1..]
      modifies this, set b | b in bodies
      ensures Valid() && i < |bodies| && rest == bodies[i + 1..] && bodies[i] == old(bodies[i])
      ensures forall b :: b in bodies ==> b in old(bodies)
      ensures SlotsOf(bodies) == StepSpec.Turn(root, old(SlotsOf(bodies)), i, i + 1 + j).slots
    {
      ghost var s := SlotsOf(bodies);
      var a, b := bodies[i], bodyList[j];
      var distance := Distance(root, a.position, b.position);
      if distance <= a.radius + b.radius {
        rest := Absorb(i, j, bodyList);
      } else {
        Pull(i, i + 1 + j);
        rest := bodyList;
      }
    }

    /** The collision branch of the inner loop: `merge_bodies(body_a,
        body_b)`, then `body_b` leaves `bodies` and `body_list`. */
    method Absorb(i: nat, j: nat, bodyList: seq<GravityBody>) returns (rest: seq<GravityBody>)
      requires Valid() && i + 1 + j < |bodies| && bodyList == bodies[i + 1..]
      modifies this, set b | b in bodies
      ensures Valid() && i < |bodies| && rest == bodies[i + 1..] && bodies[i] == old(bodies[i])
      ensures forall b :: b in bodies ==> b in old(bodies)
      ensures SlotsOf(bodies) == Absorbed(root, old(SlotsOf(bodies)), i, i + 1 + j)
    {
      assert bodyList[j] == bodies[i + 1 + j];
      MergeAt(i, i + 1 + j);
      rest := DropAt(i, j, bodyList);
    }

    /** `merge_bodies(body_a, body_b)` for the bodies at `i` and `k`: only
        the state of `body_a` changes. */
    method MergeAt(i: nat, k: nat)
      requires Valid() && i < k < |bodies|
      modifies set b | b in bodies
      ensures Valid() && bodies == old(bodies)
      ensures var s := old(SlotsOf(bodies));
              SlotsOf(bodies) == s[i := Slot(s[i].body, Merged(root, s[i].state, s[k].state))]
    {
      ghost var s := SlotsOf(bodies);
      var a, b := bodies[i], bodies[k];
      ghost var t := s[i := Slot(a, Merged(root, s[i].state, s[k].state))];
      MergeKeepsWellFormed(root, s[i].state, s[k].state);
      MergeBodies(a, b);
      forall n | 0 <= n < |bodies| ensures t[n] == Slot(bodies[n], bodies[n].State()) {
        if n != i {
          DistinctAt(bodies, n, i);
        }
      }
      SlotsAt(bodies, t);
    }

    /** `body_list.remove(body_b)` and `self.bodies.remove(body_b)` for
        `body_b = body_list[j]`, the body at index `i + 1 + j`: both lists
        lose it, and no body changes. */
    method DropAt(i: nat, j: nat, bodyList: seq<GravityBody>) returns (rest: seq<GravityBody>)
      requires Valid() && i + 1 + j < |bodies| && bodyList == bodies[i + 1..]
      modifies this
      ensures Valid() && bodies == RemoveAt(old(bodies), i + 1 + j) && rest == bodies[i + 1..]
      ensures SlotsOf(bodies) == RemoveAt(old(SlotsOf(bodies)), i + 1 + j)
    {
      ghost var s := SlotsOf(bodies);
      var list, k := bodies, i + 1 + j;
      var b := bodyList[j];
      RemoveFromBoth(list, bodyList, i, j);
      SlotsRemoveAt(list, k);
      var next := RemoveFirst(list, b);
      assert SlotsOf(next) == RemoveAt(s, k);
      assert AllWellFormed(RemoveAt(s, k));
      rest := RemoveFirst(bodyList, b);
      SetBodies(next);
    }

    /** Replaces the list of bodies, which changes no body. */
    method SetBodies(list: seq<GravityBody>)
      requires IsSqrt(root) && Distinct(list) && AllWellFormed(SlotsOf(list))
      modifies this
      ensures Valid() && bodies == list && SlotsOf(bodies) == old(SlotsOf(list))
    {
      bodies := list;
    }

    /** The other branch: `calculate_gravity(body_a, body_b)` for the bodies
        at `i` and `k`, which do not collide and so are apart. */
    method Pull(i: nat, k: nat)
      requires Valid() && i < k < |bodies| && !Collides(root, bodies[i].State(), bodies[k].State())
      modifies set b | b in bodies
      ensures Valid() && bodies == old(bodies)
      ensures SlotsOf(bodies) == Pulled(root, old(SlotsOf(bodies)), i, k)
    {
      ghost var s := SlotsOf(bodies);
      var a, b := bodies[i], bodies[k];
      SeparatedBodiesAttract(root, s[i].state, s[k].state);
      ghost var t := Pulled(root, s, i, k);
      DistinctAt(bodies, i, k);
      var ok := CalculateGravity(a, b);
      forall n | 0 <= n < |bodies| ensures t[n] == Slot(bodies[n], bodies[n].State()) {
        if n != i && n != k {
          DistinctAt(bodies, n, i);
          DistinctAt(bodies, n, k);
        }
      }
      SlotsAt(bodies, t);
    }
  }
}
