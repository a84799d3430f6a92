# Gravity simulator in Dafny

A model of the core of a small two-dimensional N-body gravity simulator.

- **`Vector2`** is a value with componentwise arithmetic and length, distance and normalisation.
- **`GravityBody`** is a disc with a position, a velocity, an accumulated force, a radius and a mass. The mass is `pi * radius^2 * density`.
- **`Simulation`** holds a list of bodies and advances it with `step`:
  - Every body `a` meets the bodies after it that the iterator over a working copy of the list reaches. The body right after an absorbed one is skipped (see below), and a body absorbed earlier is never met.
  - Two bodies that touch or overlap are merged into one. The merge is inelastic: mass, momentum and mass-weighted position add up, and the squared radius adds up.
  - The other pairs pull on each other by Newton's inverse-square law.
  - Finally every survivor is moved by one semi-implicit Euler update, which also resets its force.

Modules:

- `RealArith`: small facts about products and quotients of reals, each stated over named variables.
- `Vectors`: `Vector2` as a datatype. Division and `normalize` return a `Result` that is `DivisionByZero` where Python raises `ZeroDivisionError`. `math.sqrt` is a parameter `root` constrained by `IsSqrt`.
- `Bodies`: the state of one body (`BodyState`), the mass formula and its invariant `WellFormed`, and the three physical operations as functions:
  - `Merged` (`merge_bodies`);
  - `Attract` (`calculate_gravity`);
  - `Integrated` (`GravityBody.update`).

  The laws each operation obeys are its ensures or a lemma next to it.
- `Slots`: the list of bodies as a sequence of `Slot(body, state)`. It also holds the bookkeeping the step is specified with:
  - sums of mass, momentum, mass-weighted position and force (`TotalsOf`, `Total`);
  - which bodies survive (`Refs`, `Without`, `Accounts`);
  - what every part of a step keeps (`Keeps`).
- `StepSpec`: `step` as functions over values.
  - `Turn` is one meeting of `body_a` and `body_b`.
  - `Inner` is the inner `for body_b in body_list` loop, with the iterator position made explicit.
  - `Pairs` is the outer `for body_a in self.bodies` loop.
  - `Integrate` is the update loop, and `Stepped` is the whole step.
- `StepLaws`: what a step keeps and changes.
  - Total mass is always conserved.
  - Total momentum is conserved when nothing merges.
  - The survivors are the old bodies minus the absorbed ones, in their old order.
  - The iterator skips a body (described below).
- `Gravity`: the classes.
  - `GravityBody` is a class whose fields the methods update in place.
  - `Simulation` holds `bodies: seq<GravityBody>` and an invariant `Valid`: every body occurs once and is well formed.
  - `Step` is `Interact` (the two nested loops) followed by `UpdateAll` (the update loop). Each is a `while` loop whose invariants tie the objects' fields to the functions of `StepSpec`.
  - The loop bodies are the methods `Round`, `Meet`, `Encounter`, `Absorb`, `MergeAt`, `DropAt` and `Pull`. Each has one job and is proved against one function of `StepSpec`, `Bodies` or `Slots`.

The skipped body:

- Python's list iterator walks by index. When `body_b` is removed from `body_list` in the middle of `for body_b in body_list`, the body after it moves into the freed position, and the iterator steps over it.
- So after a merge, `body_a` does not meet the next body in this round. The model reproduces this:
  - `Inner` advances its index `j` after a merge too.
  - `StepLaws.SkipAfterMerge` exhibits three coincident bodies. After the step's interaction loops, the first has absorbed the second, but it still overlaps the third.
  - `StepLaws.SkipsNextBody` states the skip for every list: after `body_a` absorbs the body at index `k`, the inner loop goes on with the old body at `k + 2`. The old body at `k + 1` has moved to index `k`, which the loop does not visit again.
- It is the simulator's behaviour, and every law above holds with it.

Removals never hit a body at or before `body_a`'s index, so the outer loop over `self.bodies`, which the loop mutates, visits every survivor exactly once.

## Model

| member | source | states |
|---|---|---|
| Vectors.Div | vector.py:24-26 | dividing by a number fails exactly when the number is zero; otherwise the quotient scaled back by the number is the vector |
| Vectors.RAddScalar | vector.py:28 | `s + v` (`__radd__`) adds `s` to each component |
| Vectors.RSubScalar | vector.py:29 | `s - v` (`__rsub__`, an alias of `__sub__`) yields `v - s`, the negation of the componentwise `s - v` |
| Vectors.RScale | vector.py:30 | `k * v` (`__rmul__`) scales each component by `k` |
| Vectors.RDiv | vector.py:31 | `k / v` (`__rtruediv__`, an alias of `__truediv__`) fails exactly when `k` is zero, and otherwise yields `v / k` |
| Vectors.AddSubInverse | vector.py:8-18 | adding and subtracting a vector undo each other |
| Vectors.ScalarAddSubInverse | vector.py:8-18 | adding and subtracting a number undo each other |
| Vectors.ScaleDivInverse | vector.py:20-26 | dividing by a non-zero number undoes scaling by it |
| Vectors.Length | vector.py:36-37 | the length is non-negative, squares to `x^2 + y^2`, and is zero exactly for the zero vector |
| Vectors.LengthScale | vector.py:36-37 | scaling by a non-negative factor scales the length by that factor |
| Vectors.Distance | vector.py:39-42 | the distance is non-negative, squares to the squared coordinate differences, and is zero exactly when the points coincide |
| Vectors.DistanceSymmetric | vector.py:39-42 | distance does not depend on the order of its arguments |
| Vectors.Normalize | vector.py:47-48 | fails exactly on the zero vector; otherwise yields a vector of length 1 that scales back to the input by the input's length |
| Bodies.MassPositive | gravity.py:96 | a body of non-zero radius has positive mass |
| Bodies.MassAdditive | gravity.py:96 | mass is additive in the squared radius |
| Bodies.MergedRadius | gravity.py:58 | the merged radius is non-negative, and its square is the sum of the squared radii |
| Bodies.Merged | gravity.py:51-61 | the merged body carries the summed mass, the summed momentum and the summed mass-weighted position (so it sits at the centre of mass), its squared radius is the sum of the squared radii, and it keeps `body_a`'s force |
| Bodies.MergeKeepsWellFormed | gravity.py:51-61 | merging two bodies that obey the mass formula yields a body that obeys it |
| StepLaws.SameCentre | gravity.py:56 | a body merged with a copy of itself stays where it was |
| Bodies.Attract | gravity.py:63-72 | fails exactly when the two positions coincide; otherwise only the two forces change, and their sum is unchanged |
| Bodies.InverseSquareLaw | gravity.py:63-72 | the pull on `body_a` points from `a` towards `b`, its magnitude times the squared distance is `GRAVITY * m_a * m_b`, and `body_b` receives the opposite pull |
| Bodies.StrengthLaw | gravity.py:70 | for non-negative masses the magnitude is non-negative, and times the squared distance it is `GRAVITY * m_a * m_b` |
| Bodies.SeparatedBodiesAttract | gravity.py:38-45 | two well-formed bodies that do not collide are at different places, so `calculate_gravity` in `step` never divides by zero |
| Bodies.Integrated | gravity.py:101-105 | the update keeps mass and radius, resets the force, and moves the position by the new velocity times `dt` |
| Bodies.Impulse | gravity.py:101-105 | the momentum grows by the impulse `force * dt` |
| Bodies.RestingBodyStaysPut | gravity.py:101-105 | a body at rest with no force stays at rest where it is |
| Slots.RemoveFirstAt | gravity.py:35-42 | `list.remove` drops the first occurrence, which in a list without repeats is the one at the body's index |
| Slots.RemoveFromBoth | gravity.py:41-42 | removing `body_b` from `self.bodies` and from `body_list` drops the same body, keeps `body_list` equal to the part of `bodies` after `body_a`, and keeps the list free of repeats |
| StepSpec.MergeConserves | gravity.py:39-43 | a merge inside the list keeps the total mass, momentum and mass-weighted position |
| StepSpec.AttractConserves | gravity.py:45 | a pull inside the list keeps those totals and the total force |
| StepSpec.Turn | gravity.py:37-45 | one meeting leaves the bodies before `body_a` as they are and `body_a` at its index, either absorbs exactly `body_b` (removing it from its place) or keeps every body, keeps every body well formed, and keeps the totals, the total force when nothing merged, and the accounts of the bodies |
| StepSpec.Inner | gravity.py:37-45 | the inner loop leaves the bodies before `body_a` as they are and `body_a` at its index, keeps every body well formed, keeps the totals (and the total force when nothing merged), and its survivors are the old bodies minus the absorbed ones |
| StepSpec.Pairs | gravity.py:32-45 | the outer loop leaves the bodies before its start index in place and keeps every body well formed |
| StepSpec.PairsKeeps | gravity.py:32-45 | the outer loop keeps what `Keeps` names: the totals, the total force when nothing merged, and the accounts of which bodies survive |
| StepSpec.Integrate | gravity.py:47-49 | the update loop updates every body once, in order |
| StepSpec.Stepped | gravity.py:32-49 | after a step every body is well formed and no force is left |
| StepLaws.IntegrateKeepsMass | gravity.py:47-49 | the update loop keeps the total mass |
| StepLaws.IntegrateImpulse | gravity.py:47-49 | the update loop adds the total impulse to the total momentum |
| StepLaws.RefsIntegrate | gravity.py:47-49 | the update loop keeps the bodies and their order |
| StepLaws.StepConservesMass | gravity.py:32-49 | a step never creates or destroys mass |
| StepLaws.StepConservesMomentumWithoutContact | gravity.py:32-49 | a step in which nothing merges, started with no force on any body, keeps the total momentum |
| StepLaws.StepAccounts | gravity.py:32-49 | after a step the bodies are the old ones without the absorbed ones, in their old order, and each absorbed body was there once |
| StepLaws.SkipAfterMerge | gravity.py:37-43 | with three coincident bodies, the first absorbs the second, the iterator skips the third, and the first and third still overlap after the step's interaction loops |
| StepLaws.SkipsNextBody | gravity.py:37-43 | for any list, once `body_a` has absorbed the body at index `k`, the inner loop continues with the old body at `k + 2`, and the old body at `k + 1` sits at index `k`, behind the iterator |
| Gravity.GravityBody.constructor | gravity.py:84-97 | a new body has the given position, velocity and radius, the mass of the formula and no force, and is well formed when its radius is positive |
| Gravity.GravityBody.Update | gravity.py:101-105 | `update` leaves the body in the state `Integrated` gives |
| Gravity.RefsSlotsOf | gravity.py:33-34 | the bodies of the slots of `self.bodies` are `self.bodies`; `Step` uses it to state `StepAccounts` about the simulation's own list |
| Gravity.Simulation.constructor | gravity.py:20-25 | creates `body_count` = 60 distinct fresh bodies from the drawn radii, positions and velocities, every one well formed |
| Gravity.Simulation.MergeBodies | gravity.py:51-61 | `body_a` takes the state `Merged` gives |
| Gravity.Simulation.CalculateGravity | gravity.py:63-72 | succeeds exactly when the positions differ; then both bodies take the states `Attract` gives, and otherwise nothing changes |
| Gravity.Simulation.Step | gravity.py:32-49 | keeps the invariant, leaves the list of bodies and their states as `Stepped` gives, keeps the total mass of `self.bodies`, and leaves `self.bodies` equal to the old list without the absorbed bodies, in the old order |
| Gravity.Simulation.Interact | gravity.py:33-45 | the nested loops leave the bodies as `Pairs` gives, and only ever remove bodies |
| Gravity.Simulation.Round | gravity.py:34-45 | one round of the outer loop removes `body_a` from `body_list` and leaves the bodies as the inner loop `Inner` gives, which advances `Pairs` by one index, with `body_list` then the bodies after `body_a` |
| Gravity.Simulation.Meet | gravity.py:37-45 | the inner loop leaves the bodies as `Inner` gives, with `body_list` still the bodies after `body_a` |
| Gravity.Simulation.Encounter | gravity.py:37-45 | one meeting leaves the bodies as `Turn` gives |
| Gravity.Simulation.Absorb | gravity.py:39-43 | the collision branch merges `body_b` into `body_a` and removes it from both lists |
| Gravity.Simulation.MergeAt | gravity.py:40 | only `body_a`'s state changes, to the merged state |
| Gravity.Simulation.DropAt | gravity.py:41-42 | both lists lose `body_b`, and no body's state changes |
| Gravity.Simulation.Pull | gravity.py:45 | only the two bodies' forces change, as `Attract` gives |
| Gravity.Simulation.UpdateAll | gravity.py:47-49 | every body is updated once, as `Integrate` gives, and the list is unchanged |

## Left out

- `math.sqrt` is the parameter `root`, which is constrained only by being a square root (`IsSqrt`).
- Floating point: the model computes in exact reals, with no rounding and no overflow.
  - `GRAVITY` is the exact decimal 6.6739e-11, where the source computes `6.6739 * 10**-11` in floating point.
  - `PI` is the decimal value of `math.pi`.
  - `radius**2` is `radius * radius`.
- The force is modelled as the zero vector from the start. The source starts it as the integer `0`:
  - `0 + vector` goes through `__radd__` and gives the vector's components;
  - `0 / mass` gives `0.0`.
- Non-numeric operands of `__mul__` and `__truediv__`, which make them return `None`, are not modelled. The model's scaling and division take numbers only.
- `__str__` and `to_float` are not modelled: they serve display only.
- `get_delta_time` reads the clock. `Step` takes the elapsed time, already multiplied by `speed`, as its parameter `dt`.
- The random draws are parameters.
  - `Simulation.constructor` takes one (radius, position, velocity) per body and requires each radius in [1, 7], as `random.uniform(1, 7)` gives.
  - The integer positions inside the window are not constrained.
  - The velocities are not constrained to the components in [-0.01, 0.01] that `random.uniform(-0.01, 0.01)` draws.
- Drawing (`Window`, `pygame`), the main loop, and the fields `enable_body_traces`, `enable_courser_gravity`, `speed`, `color` and `current_time` are outside the physics and are not modelled.
- The field `momentum`, which `merge_bodies` sets and nothing reads, is not modelled.
- Bodies.Merged and Gravity.Simulation.MergeBodies require the summed mass to be non-zero. The source divides by it and would raise `ZeroDivisionError`. Every well-formed body has positive mass, so this never happens in `step`.
- Bodies.Integrated and Gravity.GravityBody.Update require a non-zero mass, for the same reason.
- StepLaws.StepConservesMomentumWithoutContact covers only steps in which nothing merges. With a merge, total momentum is in general not conserved, because the force already accumulated on an absorbed body is discarded.
- `list.remove` raising `ValueError` is not modelled. The model proves that `body_b` is in both lists whenever it is removed.
