/**
 * The wall pass of each step (project.py:55-66): on every axis where an
 * atom's centre is at or beyond `L_size`, that velocity component changes
 * sign and `2 m |v|` is added to the momentum handed to the walls.
 */
module Walls {
  import opened Reals
  import opened Vectors

  function Abs(x: real): (r: real)
    ensures r >= 0.0
    ensures r == x || r == -x
  {
    if x < 0.0 then -x else x
  }

  /** `abs(pos) >= L_size` on one axis. */
  predicate AtWall(p: real, lSize: real) {
    Abs(p) >= lSize
  }

  /** One velocity component after the wall test of its axis. */
  function ReflectAxis(p: real, v: real, lSize: real): real {
    if AtWall(p, lSize) then -v else v
  }

  /** Momentum handed to the wall on one axis: `2 m abs(v)`, read after the flip as the source does. */
  function AxisImpulse(m: real, p: real, v: real, lSize: real): real {
    if AtWall(p, lSize) then 2.0 * m * Abs(ReflectAxis(p, v, lSize)) else 0.0
  }

  /** An atom's velocity after the three tests, x, y and z. */
  function Reflect(p: Vec3, v: Vec3, lSize: real): Vec3 {
    Vec3(ReflectAxis(p.x, v.x, lSize), ReflectAxis(p.y, v.y, lSize), ReflectAxis(p.z, v.z, lSize))
  }

  /** Momentum one atom hands to the walls in one pass. */
  function WallImpulse(m: real, p: Vec3, v: Vec3, lSize: real): real {
    AxisImpulse(m, p.x, v.x, lSize) + AxisImpulse(m, p.y, v.y, lSize) + AxisImpulse(m, p.z, v.z, lSize)
  }

  /** All velocities after the wall pass. */
  function ReflectAll(ps: seq<Vec3>, vs: seq<Vec3>, lSize: real): (r: seq<Vec3>)
    requires |ps| == |vs|
    ensures |r| == |vs|
  {
    seq(|vs|, k requires 0 <= k < |vs| => Reflect(ps[k], vs[k], lSize))
  }

  /** Momentum handed to the walls by atoms `0 .. n-1`. */
  function ImpulseUpTo(m: real, ps: seq<Vec3>, vs: seq<Vec3>, lSize: real, n: nat): real
    requires |ps| == |vs| && n <= |vs|
  {
    if n == 0 then 0.0 else ImpulseUpTo(m, ps, vs, lSize, n - 1) + WallImpulse(m, ps[n - 1], vs[n - 1], lSize)
  }

  /** Momentum handed to the walls by the whole pass. */
  function TotalImpulse(m: real, ps: seq<Vec3>, vs: seq<Vec3>, lSize: real): real
    requires |ps| == |vs|
  {
    ImpulseUpTo(m, ps, vs, lSize, |vs|)
  }

  /** Testing the same position twice restores the velocity component. */
  lemma ReflectAxisInvolution(p: real, v: real, lSize: real)
    ensures ReflectAxis(p, ReflectAxis(p, v, lSize), lSize) == v
  {
  }

  /** With positions unchanged, a second wall pass undoes the first. */
  lemma ReflectInvolution(p: Vec3, v: Vec3, lSize: real)
    ensures Reflect(p, Reflect(p, v, lSize), lSize) == v
  {
    ReflectAxisInvolution(p.x, v.x, lSize);
    ReflectAxisInvolution(p.y, v.y, lSize);
    ReflectAxisInvolution(p.z, v.z, lSize);
  }

  lemma ReflectAxisSquare(p: real, v: real, lSize: real)
    ensures ReflectAxis(p, v, lSize) * ReflectAxis(p, v, lSize) == v * v
  {
    if AtWall(p, lSize) {
      NegSquare(v);
    }
  }

  /** A wall bounce keeps the atom's speed, hence its kinetic energy. */
  lemma ReflectKeepsSpeed(p: Vec3, v: Vec3, lSize: real)
    ensures Dot(Reflect(p, v, lSize), Reflect(p, v, lSize)) == Dot(v, v)
  {
    ReflectAxisSquare(p.x, v.x, lSize);
    ReflectAxisSquare(p.y, v.y, lSize);
    ReflectAxisSquare(p.z, v.z, lSize);
  }

  /** The wall pass keeps every atom's speed. */
  lemma ReflectAllKeepsSpeeds(ps: seq<Vec3>, vs: seq<Vec3>, lSize: real, k: int)
    requires |ps| == |vs| && 0 <= k < |vs|
    ensures Dot(ReflectAll(ps, vs, lSize)[k], ReflectAll(ps, vs, lSize)[k]) == Dot(vs[k], vs[k])
  {
    ReflectKeepsSpeed(ps[k], vs[k], lSize);
  }

  /**
   * The momentum counted for the wall on one axis is exactly the size of the
   * atom's momentum change on that axis, `m |v - v'|`.
   */
  lemma AxisImpulseIsMomentumChange(m: real, p: real, v: real, lSize: real)
    requires m >= 0.0
    ensures AxisImpulse(m, p, v, lSize) == m * Abs(v - ReflectAxis(p, v, lSize))
  {
    if AtWall(p, lSize) {
      assert Abs(v - -v) == 2.0 * Abs(-v);
      assert m * (2.0 * Abs(-v)) == 2.0 * m * Abs(-v);
    } else {
      assert v - v == 0.0;
      MulZero(m, Abs(v - v));
    }
  }

  lemma AxisImpulseNonNeg(m: real, p: real, v: real, lSize: real)
    requires m >= 0.0
    ensures AxisImpulse(m, p, v, lSize) >= 0.0
  {
    if AtWall(p, lSize) {
      MulNonNeg(2.0 * m, Abs(ReflectAxis(p, v, lSize)));
    }
  }

  /** An atom never takes momentum away from the walls. */
  lemma WallImpulseNonNeg(m: real, p: Vec3, v: Vec3, lSize: real)
    requires m >= 0.0
    ensures WallImpulse(m, p, v, lSize) >= 0.0
  {
    AxisImpulseNonNeg(m, p.x, v.x, lSize);
    AxisImpulseNonNeg(m, p.y, v.y, lSize);
    AxisImpulseNonNeg(m, p.z, v.z, lSize);
  }

  /** The momentum handed to the walls by any prefix of the atoms is non-negative. */
  lemma {:induction false} ImpulseUpToNonNeg(m: real, ps: seq<Vec3>, vs: seq<Vec3>, lSize: real, n: nat)
    requires m >= 0.0
    requires |ps| == |vs| && n <= |vs|
    ensures ImpulseUpTo(m, ps, vs, lSize, n) >= 0.0
  {
    if n > 0 {
      ImpulseUpToNonNeg(m, ps, vs, lSize, n - 1);
      WallImpulseNonNeg(m, ps[n - 1], vs[n - 1], lSize);
    }
  }

  /** An atom strictly inside the box on every axis is not touched and hands over nothing. */
  lemma InteriorUntouched(m: real, p: Vec3, v: Vec3, lSize: real)
    requires Abs(p.x) < lSize && Abs(p.y) < lSize && Abs(p.z) < lSize
    ensures Reflect(p, v, lSize) == v
    ensures WallImpulse(m, p, v, lSize) == 0.0
  {
  }

  /**
   * An atom at a wall and moving outwards on that axis (`p v > 0`) moves
   * inwards afterwards (`p v' < 0`).
   */
  lemma ReflectTurnsInward(p: real, v: real, lSize: real)
    requires AtWall(p, lSize)
    requires p * v > 0.0
    ensures p * ReflectAxis(p, v, lSize) < 0.0
  {
    assert p * -v == -(p * v);
  }

  /**
   * The test does not look at the direction of motion: an atom still beyond
   * the wall that already moves back inwards is turned outwards again.
   */
  lemma ReflectIgnoresDirection(p: real, v: real, lSize: real)
    requires AtWall(p, lSize)
    requires p * v < 0.0
    ensures p * ReflectAxis(p, v, lSize) > 0.0
  {
    assert p * -v == -(p * v);
  }
}
