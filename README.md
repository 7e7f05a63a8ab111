# Hard-sphere gas in a box: a verified model of the physics step

`project.py` simulates a few dozen helium atoms as hard spheres bouncing in a
cubic box and estimates the pressure on the walls. Every pass of its
endless loop does five things:

1. It advances the clock.
2. It moves every atom by `v * dt`.
3. It visits every pair `i < j` once. A pair that touches and is closing in
   exchanges momentum along the line of centres (`vcollision`).
4. It tests each atom on each axis. Where the centre is at or past
   `L_size = L - size`, that velocity component is negated and `2 m |v|`
   is added to a momentum accumulator.
5. Every 1000 steps, it turns the accumulated momentum into a pressure
   reading, impulse over total wall area over elapsed time, and resets the
   accumulator.

The model is split into modules that follow this structure:

- `Vectors` (vectors.dfy) holds the `Vec3` vector, its algebra, and the
  drift `Drift`, which specifies the integrator.
- `Collision` (collision.dfy) holds `VCollision`, the closed-form elastic
  collision. It forms the scalar factor first and uses the squared distance
  `Dot(r, r)`, where the source scales `p1 - p2` first and divides by
  `mag(...) ** 2`; the two are equal over the reals. It also proves the
  physics the formula promises:
  - conservation of momentum and of kinetic energy;
  - reversal of the approach speed;
  - an unchanged tangential part;
  - the equal-mass head-on swap.
- `Resolver` (resolver.dfy) specifies the `i < j` collision pass as
  functions on sequences:
  - `PairStep` is one visit, which updates both atoms from the velocities
    before the visit;
  - `Sweep` and `Resolve` are the nested loop.
  It proves that a whole pass keeps total momentum and total energy.
- `Walls` (walls.dfy) specifies the per-axis reflection and the momentum
  handed to the walls.
- `Pressure` (pressure.dfy) holds the pressure formula and the
  1000-step window.
- `Simulation` (simulation.dfy) holds the class `Gas`, the loop itself.
  - Its state: positions and velocities in two arrays, the mass, radius,
    box and time step as constants, and mutable `momentum` and `step`.
  - Its methods, each with its loop invariants: `Integrate`,
    `ResolveCollisions`, `ReflectWalls` (one `ReflectAtom` per atom),
    `MaybeReadPressure` and `Tick`.
  - Each method is proved against the specification functions above.
  - `Run` is a bounded run of the endless loop. It keeps the total kinetic
    energy, and every reading it takes is non-negative.
- `Reals` (reals.dfy) holds small facts of real arithmetic that the
  other proofs use.

Decisions the model makes:

- The source tests contact with `mag(r) < 2*size`. The model compares
  squared lengths instead. `Vectors.ContactMatchesDistance` proves the two
  tests agree.
- The source's clock `t` advances by `dt` at the top of each pass, and
  pressure is read when `int(t/dt) % 1000 == 0`. The model counts steps
  exactly, starting from 0 and incremented first, so the first reading
  falls on step 1000.
- The wall test does not look at the direction of motion. An atom still
  past the bound is flipped again on the next step, and its momentum is
  counted again, even when it is already heading inward. The model does the
  same; `Walls.ReflectIgnoresDirection` states it.

## Model

| member | source | states |
|---|---|---|
| `Collision.VCollision` | project.py:37-40 | Specifies the collision formula: both new velocities come from the same pre-collision positions and velocities. Its requires carry only the formula's domain, a non-zero mass sum and distinct centres. `NormalForm`, `ConservesMomentum`, `ConservesEnergy`, `ReversesApproach` and `KeepsTangential` say what it does. |
| `Collision.NormalForm` | project.py:37-40 | With `k (m1+m2) mag(p1-p2)^2 = 2 <v1-v2, p1-p2>`, the collision takes `m2 k (p1-p2)` from atom 1 and gives `m1 k (p1-p2)` to atom 2. Both results come from the same pre-collision values. |
| `Collision.CoefficientIsImpulse` | project.py:38-39 | The source's factor `2 m2/(m1+m2) * d / mag(r)^2` equals the other atom's mass times the common impulse `2 d / ((m1+m2) mag(r)^2)`. |
| `Collision.FirstNormal` | project.py:38 | `v1prime` is `v1 - m2 k (p1-p2)`. |
| `Collision.SecondNormal` | project.py:39 | `v2prime`, computed from atom 2's side with `p2-p1` and `v2-v1`, is `v2 + m1 k (p1-p2)`. Both sides describe one exchange along the same line. |
| `Collision.ConservesMomentum` | project.py:37-40 | `m1 v1' + m2 v2' = m1 v1 + m2 v2`, for any masses with non-zero sum and distinct centres. |
| `Collision.ConservesEnergy` | project.py:37-40 | `m1 mag(v1')^2 + m2 mag(v2')^2 = m1 mag(v1)^2 + m2 mag(v2)^2`: the collision is elastic. |
| `Collision.ReversesApproach` | project.py:37-40 | The relative velocity along the line of centres is exactly reversed. |
| `Collision.KeepsTangential` | project.py:37-40 | Every velocity component perpendicular to `p1 - p2` is unchanged, for both atoms. |
| `Collision.EqualMassHeadOnSwaps` | project.py:37-40 | Two equal masses moving along the line of centres exchange their velocities. |
| `Collision.EqualMassKeepsVelocitySum` | project.py:37-40 | With equal masses, as every atom has (project.py:34), `v1' + v2' = v1 + v2`. |
| `Collision.EqualMassKeepsSquaredSpeeds` | project.py:37-40 | With equal masses, `mag(v1')^2 + mag(v2')^2 = mag(v1)^2 + mag(v2)^2`. |
| `Vectors.ContactMatchesDistance` | project.py:52 | For the length `d >= 0` of `r`, `d < 2 size` holds exactly when `mag(r)^2 < (2 size)^2`, in both directions. |
| `Vectors.Drift` | project.py:47-48 | Specifies the integrator: each position becomes `pos + v dt`. Its own contract keeps only the number of atoms; `DriftReversible`, `DriftComposes` and `Gas.Integrate` say what it does. |
| `Vectors.DriftReversible` | project.py:47-48 | Drifting by `-dt` undoes a drift by `dt`. |
| `Vectors.DriftComposes` | project.py:47-48 | Two drifts with the same velocities add their time steps. |
| `Resolver.InContact` | project.py:52 | Specifies the contact half of the guard, `mag(pi - pj) < 2*size`, with squared lengths. It has no contract of its own; `Vectors.ContactMatchesDistance` proves it agrees with the source's test. |
| `Resolver.Approaching` | project.py:52 | Specifies the approach half of the guard, `dot(pi - pj, vi - vj) < 0`. It has no contract of its own; `ApproachingApart` and `PairStepSeparates` say what it implies. |
| `Resolver.Fires` | project.py:52 | Specifies the whole guard for pair `(i, j)`: in contact and approaching. It has no contract of its own; `PairStepQuiet` and `PairStepSeparates` state the two cases. |
| `Resolver.ApproachingApart` | project.py:52 | A pair that passes the approach test has distinct centres, so the guard rules out the division by zero in `vcollision`. |
| `Resolver.PairStep` | project.py:52-53 | Specifies one visit of the inner loop. Its own contract keeps only the number of atoms. Its effect is stated by `PairStepFrame`, `PairStepQuiet`, `PairStepSeparates` and the conservation lemmas below. |
| `Resolver.Sweep` | project.py:50-53 | Specifies the nested loop from pair `(i, j)` on, over the pairs `i < j` in order. Its own contract keeps only the number of atoms; the `Sweep...` lemmas state its properties. |
| `Resolver.Resolve` | project.py:50-53 | Specifies the whole collision pass, starting at pair `(0, 1)`. Its own contract keeps only the number of atoms. `Gas.ResolveCollisions` is proved equal to it. |
| `Resolver.PairStepFrame` | project.py:53 | A visit changes no atom other than `i` and `j`. |
| `Resolver.PairStepQuiet` | project.py:52 | A pair whose guard fails changes nothing. |
| `Resolver.PairStepSeparates` | project.py:52-53 | After a pair fires, it is separating right after its visit, on the same positions. Later pairs of the same pass, the wall pass or the next step can turn either atom back while the two still overlap, and the pair then fires again. |
| `Resolver.PairStepKeepsMomentum` | project.py:52-53 | A visit keeps the sum of all velocities, which is total momentum for the common mass. |
| `Resolver.PairStepKeepsEnergy` | project.py:52-53 | A visit keeps the sum of all squared speeds, which is total kinetic energy. |
| `Resolver.SweepKeepsMomentum` | project.py:50-53 | The collision pass keeps total momentum. |
| `Resolver.SweepKeepsEnergy` | project.py:50-53 | The collision pass keeps total kinetic energy. |
| `Resolver.SweepApartQuiet` | project.py:50-53 | When no two atoms touch, the pass leaves every velocity as it was. |
| `Resolver.TwoAtomsHeadOn` | project.py:50-53 | Two equal atoms that touch and meet head-on swap velocities in one pass. |
| `Walls.Abs` | project.py:56 | `abs` is non-negative and is `x` or `-x`. |
| `Walls.ReflectAxis` | project.py:56-57 | Specifies one axis test: the component is negated when the centre is at or past `L_size`. It has no contract of its own; `ReflectAxisInvolution`, `ReflectTurnsInward` and `ReflectIgnoresDirection` say what it does. |
| `Walls.AxisImpulse` | project.py:56-58 | Specifies the amount one axis test adds to the accumulator, `2 m abs(v)` of the flipped component, or 0. It has no contract of its own; `AxisImpulseIsMomentumChange` and `AxisImpulseNonNeg` say what it is. |
| `Walls.Reflect` | project.py:56-66 | Specifies the three axis tests of one atom. It has no contract of its own; `ReflectInvolution`, `ReflectKeepsSpeed` and `Gas.ReflectAtom` say what it does. |
| `Walls.WallImpulse` | project.py:56-66 | Specifies the momentum one atom hands to the walls in one pass, the sum of its three axis amounts. It has no contract of its own; `WallImpulseNonNeg` and `InteriorUntouched` say what it is. |
| `Walls.ImpulseUpTo` | project.py:55-66 | Specifies the momentum handed over by atoms `0 .. n-1`. It has no contract of its own; `ImpulseUpToNonNeg` bounds it, and `Gas.ReflectWalls` keeps it as its loop invariant. |
| `Walls.TotalImpulse` | project.py:55-66 | Specifies the momentum handed over by the whole wall pass. It has no contract of its own; `Gas.ReflectWalls` adds exactly this to the accumulator. |
| `Walls.ReflectAll` | project.py:55-66 | Specifies the wall pass: every atom gets its reflected velocity. Its own contract keeps only the number of atoms; `ReflectAllKeepsSpeeds` and `Gas.ReflectWalls` say more. |
| `Walls.ReflectAxisInvolution` | project.py:56-57 | Testing the same position twice restores the component. |
| `Walls.ReflectInvolution` | project.py:55-66 | Reflecting twice from the same position restores the whole velocity. |
| `Walls.ReflectKeepsSpeed` | project.py:55-66 | Reflection keeps an atom's squared speed. |
| `Walls.ReflectAllKeepsSpeeds` | project.py:55-66 | After the pass, every atom has the squared speed it had before. |
| `Walls.AxisImpulseIsMomentumChange` | project.py:56-58 | The `2 m abs(v)` added on an axis is exactly the change in the atom's momentum on that axis. |
| `Walls.AxisImpulseNonNeg` | project.py:58 | Each increment of the accumulator is non-negative. |
| `Walls.WallImpulseNonNeg` | project.py:55-66 | One atom's three increments add up to a non-negative amount. |
| `Walls.ImpulseUpToNonNeg` | project.py:55-66 | The momentum handed over by any prefix of the atoms is non-negative. |
| `Walls.InteriorUntouched` | project.py:55-66 | An atom inside the bound on all three axes keeps its velocity and hands over nothing. |
| `Walls.ReflectTurnsInward` | project.py:56-57 | An atom at the wall that is moving outward is turned inward. |
| `Walls.ReflectIgnoresDirection` | project.py:56-57 | An atom at the wall that is already moving inward is turned outward again, since the test does not look at the direction of motion. |
| `Pressure.ReadsAt` | project.py:68 | Specifies the reading test `% 1000 == 0` on the step count. It has no contract of its own; `OneReadingPerWindow` says how often it holds. |
| `Pressure.WallArea` | project.py:69 | Specifies the area `6 (2L)^2` of the six faces. It has no contract of its own; `WallAreaPos` proves it positive. |
| `Pressure.Exposure` | project.py:69 | Specifies the divisor `6 (2L)^2 dt`. It has no contract of its own; `ExposurePos` proves it positive. |
| `Pressure.WindowPressure` | project.py:69 | Specifies the reading `momentum / (6 (2L)^2 dt) / 1000`. It has no contract of its own; `PressureIsForcePerArea`, `PressureNonNeg` and `PressureMonotone` say what it is. |
| `Pressure.WallAreaPos` | project.py:69 | The area `6 (2L)^2` of the six faces is positive. |
| `Pressure.ExposurePos` | project.py:69 | Area times `dt` is positive, so the pressure formula never divides by zero. |
| `Pressure.PressureIsForcePerArea` | project.py:69 | The reading times the wall area times the window's duration `1000 dt` is the accumulated impulse. |
| `Pressure.PressureNonNeg` | project.py:69 | A non-negative accumulated impulse gives a non-negative pressure. |
| `Pressure.PressureMonotone` | project.py:69 | More impulse never gives a lower pressure. |
| `Pressure.OneReadingPerWindow` | project.py:68 | Among any 1000 consecutive steps, exactly one takes a reading, at the step named in the lemma. |
| `Simulation.Gas.Valid` | project.py:23 | Specifies the class invariant: the two arrays are distinct and of equal length, the constants are positive with `lSize = L - size`, and the accumulator, which starts at 0 and only receives non-negative amounts (project.py:58-66), is non-negative. It has no contract of its own; every method of `Gas` keeps it. |
| `Simulation.Gas.constructor` | project.py:23 | The loop starts with the given atoms, the momentum accumulator at 0 and the clock at 0. |
| `Simulation.Gas.Integrate` | project.py:47-48 | Positions become `Drift(old positions, velocities, dt)` in place, and velocities are untouched. |
| `Simulation.Gas.ResolveCollisions` | project.py:50-53 | The nested loop leaves the velocity array equal to `Resolve` of the old velocities, with positions untouched. |
| `Simulation.Gas.ReflectAtom` | project.py:56-66 | Atom `i`'s three axis tests reflect its velocity and add `WallImpulse` to the accumulator. Nothing else changes. |
| `Simulation.Gas.ReflectWalls` | project.py:55-66 | The velocity array becomes `ReflectAll` of the old one. The accumulator grows by `TotalImpulse` and stays non-negative. |
| `Simulation.Gas.MaybeReadPressure` | project.py:68-71 | At a multiple of the window, it returns `WindowPressure` of the accumulated impulse and resets the accumulator. Otherwise it returns nothing and changes nothing. A reading is never negative. |
| `Simulation.Gas.Tick` | project.py:42-71 | One pass in order: clock, drift, collision pass, wall pass with the accumulator, then the conditional reading. The new state is stated in full. |
| `Simulation.Gas.Run` | project.py:42-71 | A bounded run advances the clock by the number of steps and keeps total kinetic energy. Every reading it returns is non-negative. |
| `Simulation.ReflectAllKeepsEnergy` | project.py:55-66 | The wall pass keeps total kinetic energy. |
| `Simulation.TickKeepsEnergy` | project.py:50-66 | The collision pass followed by the wall pass keeps total kinetic energy. |
| `Simulation.TickKeepsMomentumAwayFromWalls` | project.py:50-66 | When no atom is at a wall, the wall pass changes nothing, and the step keeps total momentum. |

## Left out

- The display is not modelled: canvas, box, spheres, trails, colours, the pressure label and `rate(1000)` (project.py:15-20, 29-31, 45, 70). None of it affects the physics.
- The temperature input, `vrms` and the random initial positions and directions (project.py:4, 13, 25-35) are not modelled. The initial atoms are parameters of `Simulation.Gas.constructor`.
- The numeric values of `L`, `m`, `size` and `dt` (project.py:9-12) are not fixed. They are parameters of `Simulation.Gas.constructor`, which only requires them to be positive, with `L > size`. The atom count `N` (project.py:8) is the length of the given arrays.
- The Boltzmann constant `k` (project.py:7) is not modelled, because it only enters `vrms`.
- Real numbers stand for floating point. Rounding, overflow and underflow are not modelled.
- The square root in `mag` is replaced by a squared comparison.
- `int(t/dt)` with a floating `t` is replaced by an exact step counter. Rounding in `t/dt` could shift a reading by one step in the source.
- The endless `while True` (project.py:42) is modelled by `Tick` and the bounded `Run`.
- The stray expression `20` (project.py:76) has no effect and is left out.
- Atoms are separate objects in the source, one per sphere. The model stores them as two parallel arrays, so aliasing between atoms is not a question it can ask.
- The collision pass and the wall pass use one common mass `m`, as the source does: every atom gets `atom.m = m`. `VCollision` itself keeps two masses.
- Simulation.Gas.Run: states only that readings are non-negative, not their values. The value of each reading is stated by `Tick` and `MaybeReadPressure`.
