/**
 * The simulation loop of project.py:42-71 as a class: the atoms' positions
 * and velocities live in two arrays that each step updates in place, and the
 * loop keeps a running total of the momentum handed to the walls and a step
 * counter that stands for the clock `t`.
 */
module Simulation {
  import opened Vectors
  import opened Collision
  import opened Resolver
  import opened Walls
  import opened Pressure

  class Gas {
    /** `atoms[i].pos` and `atoms[i].v` of the source, one array slot per atom. */
    const pos: array<Vec3>
    const vel: array<Vec3>
    /** Mass and radius shared by every atom, half the side of the box, and the time step. */
    const m: real
    const size: real
    const L: real
    /** `L_size = L - size`: how far a centre can be from the middle before the atom touches a wall. */
    const lSize: real
    const dt: real
    /** Momentum handed to the walls since the last pressure reading. */
    var momentum: real
    /** Steps taken so far; the source's `t` is `step * dt`. */
    var step: nat

    predicate Valid()
      reads this
    {
      pos.Length == vel.Length && pos != vel &&
      m > 0.0 && size > 0.0 && L > size && lSize == L - size && dt > 0.0 &&
      momentum >= 0.0
    }

    /** The state before the loop starts: given atoms, `momentum = 0`, `t = 0`. */
    constructor (p: seq<Vec3>, v: seq<Vec3>, m: real, size: real, L: real, dt: real)
      requires |p| == |v|
      requires m > 0.0 && size > 0.0 && L > size && dt > 0.0
      ensures Valid()
      ensures fresh(pos) && fresh(vel)
      ensures pos[..] == p && vel[..] == v
      ensures this.m == m && this.size == size && this.L == L && lSize == L - size && this.dt == dt
      ensures momentum == 0.0 && step == 0
    {
      pos := new Vec3[|p|](i requires 0 <= i < |p| => p[i]);
      vel := new Vec3[|v|](i requires 0 <= i < |v| => v[i]);
      this.m, this.size, this.L, this.dt := m, size, L, dt;
      lSize := L - size;
      momentum, step := 0.0, 0;
    }

    /** project.py:47-48: every atom moves by `v * dt`. */
    method Integrate()
      requires Valid()
      modifies pos
      ensures Valid()
      ensures pos[..] == Drift(old(pos[..]), vel[..], dt)
    {
      var i := 0;
      while i < pos.Length
        invariant 0 <= i <= pos.Length
        invariant pos[..i] == Drift(old(pos[..]), vel[..], dt)[..i]
        invariant pos[i..] == old(pos[..])[i..]
      {
        pos[i] := Add(pos[i], Scale(vel[i], dt));
        i := i + 1;
      }
    }

    /**
     * project.py:50-53: the pairs `i < j` in order; a pair that touches and
     * is closing in takes the two velocities `VCollision` computes from its
     * current velocities.
     */
    method ResolveCollisions()
      requires Valid()
      modifies vel
      ensures Valid()
      ensures vel[..] == Resolve(pos[..], old(vel[..]), m, size)
    {
      var n := vel.Length;
      ghost var p := pos[..];
      ghost var target := Resolve(p, vel[..], m, size);
      var i := 0;
      while i < n - 1
        invariant 0 <= i
        invariant Sweep(p, vel[..], m, size, i, i + 1) == target
      {
        var j := i + 1;
        while j < n
          invariant i < j <= n
          invariant Sweep(p, vel[..], m, size, i, j) == target
        {
          ghost var before := vel[..];
          if InContact(pos[i], pos[j], size) && Approaching(pos[i], pos[j], vel[i], vel[j]) {
            ApproachingApart(pos[i], pos[j], vel[i], vel[j]);
            var w := VCollision(m, pos[i], vel[i], m, pos[j], vel[j]);
            vel[i], vel[j] := w.0, w.1;
          }
          assert vel[..] == PairStep(p, before, m, size, i, j);
          j := j + 1;
        }
        i := i + 1;
      }
    }

    /**
     * project.py:55-66: on each axis where the centre is at or past
     * `L_size` the component is negated and `2 m |v|` of the new component
     * is added to the momentum.
     */
    method ReflectWalls()
      requires Valid()
      modifies vel, this
      ensures Valid()
      ensures vel[..] == ReflectAll(pos[..], old(vel[..]), lSize)
      ensures momentum == old(momentum) + TotalImpulse(m, pos[..], old(vel[..]), lSize)
      ensures step == old(step)
    {
      ghost var vs := vel[..];
      var i := 0;
      while i < vel.Length
        invariant 0 <= i <= vel.Length
        invariant Valid()
        invariant vel[..i] == ReflectAll(pos[..], vs, lSize)[..i]
        invariant vel[i..] == vs[i..]
        invariant momentum == old(momentum) + ImpulseUpTo(m, pos[..], vs, lSize, i)
        invariant step == old(step)
      {
        ReflectAtom(i);
        i := i + 1;
      }
    }

    /** One iteration of project.py:55-66: the three axis tests of atom `i`, x, y, then z. */
    method ReflectAtom(i: int)
      requires Valid() && 0 <= i < vel.Length
      modifies vel, this
      ensures Valid()
      ensures vel[..] == old(vel[..])[i := Reflect(pos[i], old(vel[i]), lSize)]
      ensures momentum == old(momentum) + WallImpulse(m, pos[i], old(vel[i]), lSize)
      ensures step == old(step)
    {
      var p, v := pos[i], vel[i];
      ghost var v0 := v;
      if Abs(p.x) >= lSize {
        v := v.(x := -v.x);
        momentum := momentum + 2.0 * m * Abs(v.x);
      }
      assert momentum == old(momentum) + AxisImpulse(m, p.x, v0.x, lSize);
      if Abs(p.y) >= lSize {
        v := v.(y := -v.y);
        momentum := momentum + 2.0 * m * Abs(v.y);
      }
      assert momentum == old(momentum) + AxisImpulse(m, p.x, v0.x, lSize) + AxisImpulse(m, p.y, v0.y, lSize);
      if Abs(p.z) >= lSize {
        v := v.(z := -v.z);
        momentum := momentum + 2.0 * m * Abs(v.z);
      }
      assert v == Reflect(p, v0, lSize);
      WallImpulseNonNeg(m, p, v0, lSize);
      vel[i] := v;
    }

    /**
     * project.py:68-71: at every multiple of the window the accumulated
     * momentum becomes a pressure reading and is reset; otherwise nothing
     * happens.
     */
    method MaybeReadPressure() returns (reading: Option<real>)
      requires Valid()
      modifies this
      ensures Valid()
      ensures step == old(step)
      ensures ReadsAt(step) ==> reading == Some(WindowPressure(old(momentum), L, dt)) && momentum == 0.0
      ensures !ReadsAt(step) ==> reading == None && momentum == old(momentum)
      ensures reading.Some? ==> reading.value >= 0.0
    {
      if step % Window == 0 {
        PressureNonNeg(momentum, L, dt);
        reading := Some(WindowPressure(momentum, L, dt));
        momentum := 0.0;
      } else {
        reading := None;
      }
    }

    /** One pass of the `while True` body: clock, move, collide, bounce, read. */
    method Tick() returns (reading: Option<real>)
      requires Valid()
      modifies this, pos, vel
      ensures Valid()
      ensures step == old(step) + 1
      ensures pos[..] == Drift(old(pos[..]), old(vel[..]), dt)
      ensures vel[..] == ReflectAll(pos[..], Resolve(pos[..], old(vel[..]), m, size), lSize)
      ensures
        var impulse := old(momentum) + TotalImpulse(m, pos[..], Resolve(pos[..], old(vel[..]), m, size), lSize);
        if ReadsAt(step) then reading == Some(WindowPressure(impulse, L, dt)) && momentum == 0.0
        else reading == None && momentum == impulse
      ensures reading.Some? ==> reading.value >= 0.0
    {
      step := step + 1;
      Integrate();
      ResolveCollisions();
      ReflectWalls();
      reading := MaybeReadPressure();
    }

    /**
     * A bounded run of the endless loop: `steps` passes, collecting the
     * readings taken. Speeds are only exchanged or mirrored, so the total
     * kinetic energy is the same at the end as at the start.
     */
    method Run(steps: nat) returns (readings: seq<real>)
      requires Valid()
      modifies this, pos, vel
      ensures Valid()
      ensures step == old(step) + steps
      ensures SquaredSpeeds(vel[..]) == SquaredSpeeds(old(vel[..]))
      ensures forall k :: 0 <= k < |readings| ==> readings[k] >= 0.0
    {
      readings := [];
      var s := 0;
      while s < steps
        invariant 0 <= s <= steps
        invariant Valid()
        invariant step == old(step) + s
        invariant SquaredSpeeds(vel[..]) == SquaredSpeeds(old(vel[..]))
        invariant forall k :: 0 <= k < |readings| ==> readings[k] >= 0.0
      {
        ghost var before := vel[..];
        var reading := Tick();
        TickKeepsEnergy(pos[..], before, m, size, lSize);
        if reading.Some? {
          readings := readings + [reading.value];
        }
        s := s + 1;
      }
    }
  }

  /** Reflecting every velocity keeps the sum of squared speeds. */
  lemma {:induction false} ReflectAllKeepsEnergy(ps: seq<Vec3>, vs: seq<Vec3>, lSize: real)
    requires |ps| == |vs|
    ensures SquaredSpeeds(ReflectAll(ps, vs, lSize)) == SquaredSpeeds(vs)
  {
    if |vs| > 0 {
      var r := ReflectAll(ps, vs, lSize);
      assert r[1..] == ReflectAll(ps[1..], vs[1..], lSize);
      ReflectKeepsSpeed(ps[0], vs[0], lSize);
      ReflectAllKeepsEnergy(ps[1..], vs[1..], lSize);
    }
  }

  /** The velocities at the end of a step have the same total kinetic energy as at its start. */
  lemma TickKeepsEnergy(p: seq<Vec3>, v: seq<Vec3>, m: real, size: real, lSize: real)
    requires |p| == |v| && m > 0.0
    ensures SquaredSpeeds(ReflectAll(p, Resolve(p, v, m, size), lSize)) == SquaredSpeeds(v)
  {
    SweepKeepsEnergy(p, v, m, size, 0, 1);
    ReflectAllKeepsEnergy(p, Resolve(p, v, m, size), lSize);
  }

  /** A step keeps the sum of all velocities whenever no atom is at a wall. */
  lemma TickKeepsMomentumAwayFromWalls(p: seq<Vec3>, v: seq<Vec3>, m: real, size: real, lSize: real)
    requires |p| == |v| && m > 0.0
    requires forall k :: 0 <= k < |p| ==> Abs(p[k].x) < lSize && Abs(p[k].y) < lSize && Abs(p[k].z) < lSize
    ensures ReflectAll(p, Resolve(p, v, m, size), lSize) == Resolve(p, v, m, size)
    ensures VSum(ReflectAll(p, Resolve(p, v, m, size), lSize)) == VSum(v)
  {
    var w := Resolve(p, v, m, size);
    forall k | 0 <= k < |w|
      ensures ReflectAll(p, w, lSize)[k] == w[k]
    {
      InteriorUntouched(m, p[k], w[k], lSize);
    }
    assert ReflectAll(p, w, lSize) == w;
    SweepKeepsMomentum(p, v, m, size, 0, 1);
  }
}
